/**
 Shareable identifiers: type-length-value lists inside bech32 strings. Bech32, UTF-8 and
 hexadecimal are abstract functions with inverse laws.
 */
module Nhash {
  import opened Bytes
  import opened Wrappers

  datatype CodeError = UnexpectedEnd | NotEnoughData | ValueTooLong | BadLength | BadCode | WrongPrefix | Missing

  // --------------------------------------------------- type-length-value lists

  const FIRST_TYPE: nat := 0

  type Table = map<Byte, seq<Bytes>>

  /** Types map to lists that are not empty, of values whose length fits a byte. */
  ghost predicate WellFormed(t: Table) {
    forall k :: k in t ==> t[k] != [] && AllShort(t[k])
  }

  ghost predicate AllShort(values: seq<Bytes>) {
    forall i :: 0 <= i < |values| ==> |values[i]| <= 255
  }

  /** Every value's length fits a byte. */
  ghost predicate Short(t: Table) {
    forall k :: k in t ==> AllShort(t[k])
  }

  function Push(t: Table, k: Byte, v: Bytes): Table {
    t[k := (if k in t then t[k] else []) + [v]]
  }

  /** Parse what is left of the data into a table that holds what came before. */
  function Parse(data: Bytes, t: Table): Result<Table, CodeError> {
    if data == [] then Ok(t)
    else if |data| < 2 then Err(UnexpectedEnd)
    else if 2 + data[1] > |data| then Err(NotEnoughData)
    else Parse(data[2 + data[1]..], Push(t, data[0], data[2..2 + data[1]]))
  }

  method ParseTLV(data: Bytes) returns (r: Result<Table, CodeError>)
    ensures r == Parse(data, map[])
  {
    var result: Table := map[];
    var offset := 0;
    while offset < |data|
      invariant offset <= |data| && Parse(data[offset..], result) == Parse(data, map[])
    {
      var rest := data[offset..];
      if offset + 2 > |data| {
        return Err(UnexpectedEnd);
      }
      var t, l := data[offset], data[offset + 1];
      if offset + 2 + l > |data| {
        return Err(NotEnoughData);
      }
      var v := data[offset + 2..offset + 2 + l];
      assert rest[2..2 + l] == v && rest[2 + l..] == data[offset + 2 + l..];
      result := Push(result, t, v);
      offset := offset + 2 + l;
    }
    r := Ok(result);
  }

  function Item(k: Byte, v: Bytes): Bytes
    requires |v| <= 255
  {
    [k, |v|] + v
  }

  function ItemsOf(k: Byte, values: seq<Bytes>): Bytes
    requires AllShort(values)
  {
    if values == [] then [] else Item(k, values[0]) + ItemsOf(k, values[1..])
  }

  /** The items of the types from `k` on, in ascending order of the types. */
  ghost function Encoded(t: Table, k: nat): Bytes
    requires k <= 256 && Short(t)
    decreases 256 - k
  {
    if k == 256 then [] else (if k in t then ItemsOf(k, t[k]) else []) + Encoded(t, k + 1)
  }

  ghost function Encoding(t: Table): Bytes
    requires Short(t)
  {
    Encoded(t, FIRST_TYPE)
  }

  method EncodeValues(k: Byte, values: seq<Bytes>) returns (r: Result<Bytes, CodeError>)
    ensures r.Ok? <==> AllShort(values)
    ensures r.Ok? ==> r.value == ItemsOf(k, values)
  {
    var out: Bytes := [];
    for i := 0 to |values|
      invariant forall j :: 0 <= j < i ==> |values[j]| <= 255
      invariant AllShort(values) ==> out + ItemsOf(k, values[i..]) == ItemsOf(k, values)
    {
      var v := values[i];
      if |v| > 255 {
        return Err(ValueTooLong);
      }
      ItemsStep(k, values, i, out);
      out := out + Item(k, v);
    }
    assert out + [] == out;
    r := Ok(out);
  }

  lemma ItemsStep(k: Byte, values: seq<Bytes>, i: nat, out: Bytes)
    requires i < |values|
    ensures AllShort(values) ==>
      out + ItemsOf(k, values[i..]) == out + Item(k, values[i]) + ItemsOf(k, values[i + 1..])
  {
    if AllShort(values) {
      assert values[i..][1..] == values[i + 1..];
      assert out + (Item(k, values[i]) + ItemsOf(k, values[i + 1..])) == out + Item(k, values[i]) + ItemsOf(k, values[i + 1..]);
    }
  }

  ghost predicate ShortTo(t: Table, k: nat) {
    forall j :: j in t && j < k ==> AllShort(t[j])
  }

  /** What has been written, with what the types from `k` on still give, is the encoding. */
  ghost predicate Written(t: Table, k: nat, out: Bytes)
    requires k <= 256
  {
    ShortTo(t, k) && (Short(t) ==> out + Encoded(t, k) == Encoding(t))
  }

  lemma EncodedSplit(t: Table, k: nat, part: Bytes)
    requires k < 256 && Short(t) && part == if k in t then ItemsOf(k, t[k]) else []
    ensures Encoded(t, k) == part + Encoded(t, k + 1)
  {
  }

  lemma ShortNext(t: Table, k: nat)
    requires k < 256 && ShortTo(t, k) && (k in t ==> AllShort(t[k]))
    ensures ShortTo(t, k + 1)
  {
  }

  lemma JoinThree(a: Bytes, b: Bytes, c: Bytes)
    ensures a + (b + c) == a + b + c
  {
  }

  lemma WrittenNext(t: Table, k: nat, out: Bytes, part: Bytes)
    requires k < 256 && Written(t, k, out)
    requires k in t ==> AllShort(t[k]) && part == ItemsOf(k, t[k])
    requires k !in t ==> part == []
    ensures Written(t, k + 1, out + part)
  {
    ShortNext(t, k);
    if Short(t) {
      EncodedSplit(t, k, part);
      JoinThree(out, part, Encoded(t, k + 1));
    }
  }

  lemma WrittenNothing(t: Table)
    ensures Written(t, FIRST_TYPE, [])
  {
    if Short(t) {
      assert [] + Encoding(t) == Encoding(t);
    }
  }

  lemma WrittenAll(t: Table, out: Bytes)
    requires Written(t, 256, out)
    ensures Short(t) && out == Encoding(t)
  {
    assert Short(t);
    assert out + [] == out;
  }

  lemma NotShort(t: Table, k: Byte)
    requires k in t && !AllShort(t[k])
    ensures !Short(t)
  {
  }

  /** Write the values of every type, in ascending order of the types. */
  method EncodeTLV(t: Table) returns (r: Result<Bytes, CodeError>)
    ensures r.Ok? <==> Short(t)
    ensures r.Ok? ==> r.value == Encoding(t)
    ensures r.Err? ==> r.error == ValueTooLong
  {
    var out: Bytes := [];
    WrittenNothing(t);
    var k: nat := FIRST_TYPE;
    while k < 256
      invariant k <= 256 && Written(t, k, out)
    {
      var part := EncodeValues(k, if k in t then t[k] else []);
      if part.Err? {
        NotShort(t, k);
        return Err(ValueTooLong);
      }
      WrittenNext(t, k, out, part.value);
      out := out + part.value;
      k := k + 1;
    }
    WrittenAll(t, out);
    r := Ok(out);
  }

  /** The table with some more values of one type. */
  function Extend(t: Table, k: Byte, values: seq<Bytes>): Table
    decreases |values|
  {
    if values == [] then t else Extend(Push(t, k, values[0]), k, values[1..])
  }

  lemma {:induction false} ParseItems(k: Byte, values: seq<Bytes>, rest: Bytes, t: Table)
    requires AllShort(values)
    ensures Parse(ItemsOf(k, values) + rest, t) == Parse(rest, Extend(t, k, values))
    decreases |values|
  {
    if values == [] {
      assert [] + rest == rest;
    } else {
      var v, more := values[0], ItemsOf(k, values[1..]) + rest;
      var data := ItemsOf(k, values) + rest;
      assert data == Item(k, v) + more;
      assert data[0] == k && data[1] == |v| && data[2..2 + |v|] == v && data[2 + |v|..] == more;
      ParseItems(k, values[1..], rest, Push(t, k, v));
    }
  }

  lemma {:induction false} ExtendAdds(t: Table, k: Byte, values: seq<Bytes>)
    ensures values != [] ==> Extend(t, k, values) == t[k := (if k in t then t[k] else []) + values]
    decreases |values|
  {
    if values != [] {
      var before := if k in t then t[k] else [];
      ExtendAdds(Push(t, k, values[0]), k, values[1..]);
      assert before + values == before + [values[0]] + values[1..];
      if |values| == 1 {
        assert values == [values[0]];
      }
    }
  }

  /** The part of a table with types below `k`. */
  function Below(t: Table, k: nat): Table {
    map j | j in t && j < k :: t[j]
  }

  lemma BelowStep(t: Table, k: nat)
    requires k < 256
    ensures k !in Below(t, k)
    ensures Below(t, k + 1) == if k in t then Below(t, k)[k := t[k]] else Below(t, k)
  {
  }

  lemma ParseType(t: Table, k: nat)
    requires k < 256 && WellFormed(t)
    ensures Parse(Encoded(t, k), Below(t, k)) == Parse(Encoded(t, k + 1), Below(t, k + 1))
  {
    BelowStep(t, k);
    var rest := Encoded(t, k + 1);
    if k in t {
      assert Encoded(t, k) == ItemsOf(k, t[k]) + rest;
      ParseItems(k, t[k], rest, Below(t, k));
      ExtendAdds(Below(t, k), k, t[k]);
      assert [] + t[k] == t[k];
    } else {
      assert Encoded(t, k) == rest;
    }
  }

  lemma {:induction false} ParseEncoded(t: Table, k: nat)
    requires k <= 256 && WellFormed(t)
    ensures Parse(Encoded(t, k), Below(t, k)) == Ok(t)
    decreases 256 - k
  {
    if k == 256 {
      assert Below(t, 256) == t;
    } else {
      ParseType(t, k);
      ParseEncoded(t, k + 1);
    }
  }

  /** Parsing inverts encoding on every well-formed table. */
  lemma TableRoundTrip(t: Table)
    requires WellFormed(t)
    ensures Parse(Encoding(t), map[]) == Ok(t)
  {
    assert Below(t, FIRST_TYPE) == map[];
    ParseEncoded(t, FIRST_TYPE);
  }

  /** Whatever parses is a well-formed table, so it can be encoded again. */
  lemma {:induction false} ParsedIsWellFormed(data: Bytes, t: Table)
    requires WellFormed(t) && Parse(data, t).Ok?
    ensures WellFormed(Parse(data, t).value)
  {
    if data != [] {
      ParsedIsWellFormed(data[2 + data[1]..], Push(t, data[0], data[2..2 + data[1]]));
    }
  }

  // ------------------------------------------------------------------ bech32

  /** Bech32 as functions: encoding fails for what is too long. */
  datatype Bech32 = Bech32(encode: (string, Bytes) -> Option<string>, decode: string -> Option<(string, Bytes)>)

  const MAX_SIZE: nat := 5000

  /** The prefix, a separator, five bits a character, and six characters of checksum. */
  predicate Fits(prefix: string, data: Bytes) {
    |prefix| + 1 + (8 * |data| + 4) / 5 + 6 <= MAX_SIZE
  }

  /** Encoding works for what fits, decoding gives it back, and the prefix stands in front. */
  ghost predicate LawfulFor(b: Bech32, p: string) {
    forall d: Bytes ::
      && (b.encode(p, d).Some? <==> Fits(p, d))
      && (b.encode(p, d).Some? ==> b.decode(b.encode(p, d).value) == Some((p, d)) && p + "1" <= b.encode(p, d).value)
  }

  /** What is asked of bech32, for the two prefixes in use. */
  ghost predicate Lawful(b: Bech32) {
    LawfulFor(b, "nhash") && LawfulFor(b, "npath")
  }

  /** A code may be written as a link. */
  function Stripped(code: string): string {
    if "hashtree:" <= code then code[9..] else code
  }

  lemma StripsTo(code: string, asLink: bool)
    requires code != [] && code[0] == 'n'
    ensures Stripped(if asLink then "hashtree:" + code else code) == code
  {
    if asLink {
      assert ("hashtree:" + code)[9..] == code;
    } else {
      assert "hashtree:"[0] != code[0];
    }
  }

  const HASH: Byte := 0
  const PUBKEY: Byte := 2
  const TREE_NAME: Byte := 3
  const PATH: Byte := 4
  const DECRYPT_KEY: Byte := 5

  // ------------------------------------------------------------------- nhash

  datatype Cid = Cid(hash: Bytes, key: Option<Bytes>)

  function HashTable(cid: Cid): Table {
    if cid.key.Some? then map[HASH := [cid.hash], DECRYPT_KEY := [cid.key.value]] else map[HASH := [cid.hash]]
  }

  predicate Complete(cid: Cid) {
    |cid.hash| == 32 && (cid.key.Some? ==> |cid.key.value| == 32)
  }

  method NhashEncode(b: Bech32, cid: Cid) returns (r: Result<string, CodeError>)
    requires Lawful(b)
    ensures r.Ok? <==> Complete(cid)
    ensures r.Ok? ==> b.decode(r.value) == Some(("nhash", EncodedHash(cid))) && "nhash1" <= r.value
    ensures r.Ok? ==>
      b.decode(r.value) == Some(("nhash", [0, 32] + cid.hash + if cid.key.Some? then [5, 32] + cid.key.value else []))
  {
    if |cid.hash| != 32 {
      return Err(BadLength);
    }
    var table: Table := map[HASH := [cid.hash]];
    if cid.key.Some? {
      if |cid.key.value| != 32 {
        return Err(BadLength);
      }
      table := table[DECRYPT_KEY := [cid.key.value]];
    }
    assert table == HashTable(cid);
    HashTableShort(cid);
    var data := EncodeTLV(table);
    HashTableSize(cid);
    HashLayout(cid);
    var code := b.encode("nhash", data.value);
    r := Ok(code.value);
  }

  lemma HashTableShort(cid: Cid)
    requires Complete(cid)
    ensures WellFormed(HashTable(cid)) && Short(HashTable(cid))
  {
  }

  lemma {:induction false} NothingFrom(t: Table, k: nat)
    requires k <= 256 && Short(t) && forall j :: j in t ==> j < k
    ensures Encoded(t, k) == []
    decreases 256 - k
  {
    if k < 256 {
      NothingFrom(t, k + 1);
    }
  }

  /** The bytes of an encoded hash: type 0, then type 5 if there is a key, each with its
      length. */
  lemma HashLayout(cid: Cid)
    requires Complete(cid)
    ensures EncodedHash(cid) == [0, 32] + cid.hash + if cid.key.Some? then [5, 32] + cid.key.value else []
  {
    HashTableShort(cid);
    var t := HashTable(cid);
    NothingFrom(t, 6);
    KeyItem(t, cid.key);
    NoItems(t, 4);
    NoItems(t, 3);
    NoItems(t, 2);
    NoItems(t, 1);
    EncodedSplit(t, 0, ItemsOf(0, [cid.hash]));
    OneItem(0, cid.hash);
  }

  /** The key is what a table ends with. */
  lemma KeyItem(t: Table, key: Option<Bytes>)
    requires Short(t) && Encoded(t, 6) == [] && (key.Some? ==> |key.value| == 32)
    requires if key.Some? then DECRYPT_KEY in t && t[DECRYPT_KEY] == [key.value] else DECRYPT_KEY !in t
    ensures Encoded(t, 5) == if key.Some? then [5, 32] + key.value else []
  {
    if key.Some? {
      EncodedSplit(t, 5, ItemsOf(5, [key.value]));
      OneItem(5, key.value);
    } else {
      NoItems(t, 5);
    }
  }

  /** An encoded hash has 34 bytes, or 68 with a key: never the 32 of a bare hash. */
  lemma HashTableSize(cid: Cid)
    requires Complete(cid)
    ensures Short(HashTable(cid)) && |Encoding(HashTable(cid))| == if cid.key.Some? then 68 else 34
  {
    HashTableShort(cid);
    HashLayout(cid);
  }

  lemma OneItem(k: Byte, v: Bytes)
    requires |v| <= 255
    ensures ItemsOf(k, [v]) == Item(k, v)
  {
    assert [v][1..] == [];
    assert ItemsOf(k, [v]) == Item(k, v) + [];
  }

  lemma NoItems(t: Table, k: nat)
    requires k < 256 && Short(t) && k !in t
    ensures Encoded(t, k) == Encoded(t, k + 1)
  {
  }

  /** The values of a table under a type; none if the type does not occur. */
  function Values(t: Table, k: Byte): seq<Bytes> {
    if k in t then t[k] else []
  }

  /** The hash under type 0 and the key under type 5, the first of each. */
  ghost predicate HashOrError(t: Table, r: Result<Cid, CodeError>) {
    var hash, key := Values(t, 0), Values(t, 5);
    if hash == [] || |hash[0]| != 32 then r == Err(Missing)
    else if key == [] then r == Ok(Cid(hash[0], None))
    else if |key[0]| != 32 then r == Err(BadLength)
    else r == Ok(Cid(hash[0], Some(key[0])))
  }

  /** Reading a code: 32 bytes are a bare hash, and anything else is a list of items. */
  method NhashDecode(b: Bech32, code: string) returns (r: Result<Cid, CodeError>)
    ensures var d := b.decode(Stripped(code));
      && (d.None? ==> r == Err(BadCode))
      && (d.Some? && d.value.0 != "nhash" ==> r == Err(WrongPrefix))
      && (d.Some? && d.value.0 == "nhash" && |d.value.1| == 32 ==> r == Ok(Cid(d.value.1, None)))
      && (d.Some? && d.value.0 == "nhash" && |d.value.1| != 32 ==>
            var t := Parse(d.value.1, map[]); if t.Err? then r == Err(t.error) else HashOrError(t.value, r))
    ensures forall cid :: Complete(cid) && b.decode(Stripped(code)) == Some(("nhash", EncodedHash(cid))) ==> r == Ok(cid)
    ensures r.Ok? ==> Complete(r.value)
  {
    var decoded := b.decode(Stripped(code));
    if decoded.None? {
      return Err(BadCode);
    }
    var (prefix, data) := decoded.value;
    if prefix != "nhash" {
      return Err(WrongPrefix);
    }
    forall cid | Complete(cid) && data == EncodedHash(cid)
      ensures |data| != 32 && Parse(data, map[]) == Ok(HashTable(cid))
    {
      HashTableSize(cid);
      HashTableShort(cid);
      TableRoundTrip(HashTable(cid));
    }
    if |data| == 32 {
      return Ok(Cid(data, None));
    }
    var parsed := ParseTLV(data);
    if parsed.Err? {
      return Err(parsed.error);
    }
    var t := parsed.value;
    ParsedIsWellFormed(data, map[]);
    if HASH !in t || |t[HASH][0]| != 32 {
      return Err(Missing);
    }
    var key := None;
    if DECRYPT_KEY in t {
      if |t[DECRYPT_KEY][0]| != 32 {
        return Err(BadLength);
      }
      key := Some(t[DECRYPT_KEY][0]);
    }
    r := Ok(Cid(t[HASH][0], key));
  }

  ghost function EncodedHash(cid: Cid): Bytes
    requires Complete(cid)
  {
    HashTableShort(cid);
    Encoding(HashTable(cid))
  }

  /** A code that is written and read, also as a link, gives back the hash and the key. */
  method NhashRoundTrip(b: Bech32, cid: Cid, asLink: bool) returns (r: Result<Cid, CodeError>)
    requires Lawful(b)
    ensures if Complete(cid) then r == Ok(cid) else r.Err?
  {
    var code := NhashEncode(b, cid);
    if code.Err? {
      return Err(code.error);
    }
    var text := if asLink then "hashtree:" + code.value else code.value;
    StripsTo(code.value, asLink);
    r := NhashDecode(b, text);
  }

  // ------------------------------------------------------------------- npath

  /** Text as bytes and as hexadecimal digits. */
  datatype Text = Text(encode: string -> Bytes, decode: Bytes -> string,
                       hexToBytes: string -> Option<Bytes>, bytesToHex: Bytes -> string)

  datatype Npath = Npath(pubkey: string, treeName: string, path: seq<string>, decryptKey: Option<string>)

  /** A string that survives being encoded: no lone surrogate, no leading byte-order mark. */
  predicate Survives(text: Text, s: string) {
    text.decode(text.encode(s)) == s
  }

  predicate HexOf32(text: Text, s: string) {
    var bytes := text.hexToBytes(s);
    bytes.Some? && |bytes.value| == 32
  }

  /** What an encoder accepts: 32-byte keys, and names of at most 255 bytes. */
  predicate Encodable(text: Text, p: Npath) {
    && HexOf32(text, p.pubkey)
    && |text.encode(p.treeName)| <= 255
    && (forall i :: 0 <= i < |p.path| ==> |text.encode(p.path[i])| <= 255)
    && (HasKey(p) ==> HexOf32(text, p.decryptKey.value))
  }

  /** An empty key string counts as no key. */
  predicate HasKey(p: Npath) {
    p.decryptKey.Some? && p.decryptKey.value != ""
  }

  /** The digits are in lower case and the names survive. */
  predicate Canonical(text: Text, p: Npath) {
    && Survives(text, p.treeName)
    && (forall i :: 0 <= i < |p.path| ==> Survives(text, p.path[i]))
    && (HexOf32(text, p.pubkey) ==> text.bytesToHex(text.hexToBytes(p.pubkey).value) == p.pubkey)
    && (HasKey(p) && HexOf32(text, p.decryptKey.value) ==>
          text.bytesToHex(text.hexToBytes(p.decryptKey.value).value) == p.decryptKey.value)
  }

  function EncodeAll(text: Text, names: seq<string>): (r: seq<Bytes>)
    ensures |r| == |names| && forall i :: 0 <= i < |names| ==> r[i] == text.encode(names[i])
  {
    seq(|names|, i requires 0 <= i < |names| => text.encode(names[i]))
  }

  function DecodeAll(text: Text, values: seq<Bytes>): (r: seq<string>)
    ensures |r| == |values| && forall i :: 0 <= i < |values| ==> r[i] == text.decode(values[i])
  {
    seq(|values|, i requires 0 <= i < |values| => text.decode(values[i]))
  }

  function PathTable(text: Text, p: Npath): Table
    requires HexOf32(text, p.pubkey) && (HasKey(p) ==> HexOf32(text, p.decryptKey.value))
  {
    var base: Table := map[PUBKEY := [text.hexToBytes(p.pubkey).value], TREE_NAME := [text.encode(p.treeName)]];
    var named := if p.path != [] then base[PATH := EncodeAll(text, p.path)] else base;
    if HasKey(p) then named[DECRYPT_KEY := [text.hexToBytes(p.decryptKey.value).value]] else named
  }

  lemma PathTableShort(text: Text, p: Npath)
    requires HexOf32(text, p.pubkey) && (HasKey(p) ==> HexOf32(text, p.decryptKey.value))
    ensures Short(PathTable(text, p)) <==> Encodable(text, p)
    ensures Encodable(text, p) ==> WellFormed(PathTable(text, p))
  {
    var t := PathTable(text, p);
    assert t[TREE_NAME][0] == text.encode(p.treeName);
    if Short(t) {
      forall i | 0 <= i < |p.path| ensures |text.encode(p.path[i])| <= 255 {
        assert t[PATH][i] == text.encode(p.path[i]);
      }
    }
  }

  ghost function EncodedPath(text: Text, p: Npath): Bytes
    requires Encodable(text, p)
  {
    PathTableShort(text, p);
    Encoding(PathTable(text, p))
  }

  predicate GoodKeys(text: Text, p: Npath) {
    HexOf32(text, p.pubkey) && (HasKey(p) ==> HexOf32(text, p.decryptKey.value))
  }

  method BuildTable(text: Text, p: Npath) returns (r: Result<Table, CodeError>)
    ensures r.Ok? <==> GoodKeys(text, p)
    ensures r.Ok? ==> r.value == PathTable(text, p)
  {
    if !HexOf32(text, p.pubkey) {
      return Err(BadLength);
    }
    var t: Table := map[PUBKEY := [text.hexToBytes(p.pubkey).value], TREE_NAME := [text.encode(p.treeName)]];
    if |p.path| > 0 {
      t := t[PATH := EncodeAll(text, p.path)];
    }
    if HasKey(p) {
      if !HexOf32(text, p.decryptKey.value) {
        return Err(BadLength);
      }
      t := t[DECRYPT_KEY := [text.hexToBytes(p.decryptKey.value).value]];
    }
    r := Ok(t);
  }

  /** The items of the path segments, in order. */
  ghost function PathItems(segments: seq<Bytes>): Bytes
    requires AllShort(segments)
  {
    if segments == [] then [] else [4, |segments[0]|] + segments[0] + PathItems(segments[1..])
  }

  lemma {:induction false} PathItemsAre(segments: seq<Bytes>)
    requires AllShort(segments)
    ensures ItemsOf(PATH, segments) == PathItems(segments)
  {
    if segments != [] {
      PathItemsAre(segments[1..]);
    }
  }

  /** The segments and the key are what a table ends with. */
  lemma SegmentItems(t: Table, segments: seq<Bytes>, key: Option<Bytes>)
    requires Short(t) && Encoded(t, 6) == [] && AllShort(segments) && (key.Some? ==> |key.value| == 32)
    requires Values(t, 4) == segments && Values(t, 5) == if key.Some? then [key.value] else []
    requires 5 in t ==> t[5] != []
    ensures Encoded(t, 4) == PathItems(segments) + if key.Some? then [5, 32] + key.value else []
  {
    KeyItem(t, key);
    PathItemsAre(segments);
    EncodedSplit(t, 4, if 4 in t then ItemsOf(4, t[4]) else []);
  }

  /** One value under a type. */
  lemma OneValue(t: Table, k: Byte, v: Bytes)
    requires Short(t) && |v| <= 255 && Values(t, k) == [v]
    ensures Encoded(t, k) == [k, |v|] + v + Encoded(t, k + 1)
  {
    EncodedSplit(t, k, ItemsOf(k, [v]));
    OneItem(k, v);
  }

  /** The bytes of an encoded path: the author under type 2, the tree name under 3, every
      segment under 4 and the key, if there is one, under 5. */
  lemma PathLayout(text: Text, p: Npath)
    requires Encodable(text, p)
    ensures AllShort(EncodeAll(text, p.path))
    ensures EncodedPath(text, p)
         == [2, 32] + text.hexToBytes(p.pubkey).value
            + ([3, |text.encode(p.treeName)|] + text.encode(p.treeName)
               + (PathItems(EncodeAll(text, p.path))
                  + if HasKey(p) then [5, 32] + text.hexToBytes(p.decryptKey.value).value else []))
  {
    PathTableShort(text, p);
    var t, segments := PathTable(text, p), EncodeAll(text, p.path);
    PathValues(text, p);
    NothingFrom(t, 6);
    SegmentItems(t, segments, if HasKey(p) then Some(text.hexToBytes(p.decryptKey.value).value) else None);
    OneValue(t, 3, text.encode(p.treeName));
    OneValue(t, 2, text.hexToBytes(p.pubkey).value);
    NoItems(t, 1);
    NoItems(t, 0);
  }

  lemma PathValues(text: Text, p: Npath)
    requires Encodable(text, p)
    ensures var t := PathTable(text, p);
      && Values(t, 2) == [text.hexToBytes(p.pubkey).value] && Values(t, 3) == [text.encode(p.treeName)]
      && Values(t, 4) == EncodeAll(text, p.path)
      && Values(t, 5) == (if HasKey(p) then [text.hexToBytes(p.decryptKey.value).value] else [])
      && (forall k :: k in t ==> t[k] != [] && 1 < k < 6)
  {
  }

  method NpathEncode(b: Bech32, text: Text, p: Npath) returns (r: Result<string, CodeError>)
    requires Lawful(b)
    ensures r.Ok? <==> Encodable(text, p) && Fits("npath", EncodedPath(text, p))
    ensures r.Ok? ==> b.decode(r.value) == Some(("npath", EncodedPath(text, p))) && "npath1" <= r.value
  {
    var t := BuildTable(text, p);
    if t.Err? {
      return Err(t.error);
    }
    PathTableShort(text, p);
    var data := EncodeTLV(t.value);
    if data.Err? {
      return Err(data.error);
    }
    var code := b.encode("npath", data.value);
    r := if code.Some? then Ok(code.value) else Err(ValueTooLong);
  }

  /** The author under type 2, the tree name under 3, the segments under 4 and the key under
      5: of each but the segments the first. */
  ghost predicate PathOrError(text: Text, t: Table, r: Result<Npath, CodeError>) {
    var pubkey, name, key := Values(t, 2), Values(t, 3), Values(t, 5);
    if pubkey == [] || |pubkey[0]| != 32 || name == [] then r == Err(Missing)
    else if key != [] && |key[0]| != 32 then r == Err(BadLength)
    else
      r == Ok(Npath(text.bytesToHex(pubkey[0]), text.decode(name[0]), DecodeAll(text, Values(t, 4)),
                    if key == [] then None else Some(text.bytesToHex(key[0]))))
  }

  /** What a parsed table says about a path, with the tree and the digits decoded. */
  method ReadPath(text: Text, t: Table) returns (r: Result<Npath, CodeError>)
    requires WellFormed(t)
    ensures PathOrError(text, t, r)
  {
    if PUBKEY !in t || |t[PUBKEY][0]| != 32 || TREE_NAME !in t {
      return Err(Missing);
    }
    var key := None;
    if DECRYPT_KEY in t {
      if |t[DECRYPT_KEY][0]| != 32 {
        return Err(BadLength);
      }
      key := Some(text.bytesToHex(t[DECRYPT_KEY][0]));
    }
    r := Ok(Npath(text.bytesToHex(t[PUBKEY][0]), text.decode(t[TREE_NAME][0]),
                  if PATH in t then DecodeAll(text, t[PATH]) else [], key));
  }

  method NpathDecode(b: Bech32, text: Text, code: string) returns (r: Result<Npath, CodeError>)
    ensures var d := b.decode(Stripped(code));
      && (d.None? ==> r == Err(BadCode))
      && (d.Some? && d.value.0 != "npath" ==> r == Err(WrongPrefix))
      && (d.Some? && d.value.0 == "npath" ==>
            var t := Parse(d.value.1, map[]); if t.Err? then r == Err(t.error) else PathOrError(text, t.value, r))
    ensures forall p ::
      Encodable(text, p) && Canonical(text, p) && b.decode(Stripped(code)) == Some(("npath", EncodedPath(text, p))) ==>
      r == Ok(if HasKey(p) then p else p.(decryptKey := None))
  {
    var decoded := b.decode(Stripped(code));
    if decoded.None? {
      return Err(BadCode);
    }
    var (prefix, data) := decoded.value;
    if prefix != "npath" {
      return Err(WrongPrefix);
    }
    forall p | Encodable(text, p) && data == EncodedPath(text, p) ensures Parse(data, map[]) == Ok(PathTable(text, p)) {
      PathTableShort(text, p);
      TableRoundTrip(PathTable(text, p));
    }
    var parsed := ParseTLV(data);
    if parsed.Err? {
      return Err(parsed.error);
    }
    ParsedIsWellFormed(data, map[]);
    r := ReadPath(text, parsed.value);
    forall p | Encodable(text, p) && Canonical(text, p) && data == EncodedPath(text, p)
      ensures r == Ok(if HasKey(p) then p else p.(decryptKey := None))
    {
      PathReadBack(text, p);
    }
  }

  lemma PathReadBack(text: Text, p: Npath)
    requires Encodable(text, p) && Canonical(text, p)
    ensures var t := PathTable(text, p);
      && PUBKEY in t && |t[PUBKEY]| > 0 && |t[PUBKEY][0]| == 32 && text.bytesToHex(t[PUBKEY][0]) == p.pubkey
      && TREE_NAME in t && |t[TREE_NAME]| > 0 && text.decode(t[TREE_NAME][0]) == p.treeName
      && (if PATH in t then DecodeAll(text, t[PATH]) else []) == p.path
      && (DECRYPT_KEY in t <==> HasKey(p))
      && (HasKey(p) ==> |t[DECRYPT_KEY]| > 0 && |t[DECRYPT_KEY][0]| == 32 && text.bytesToHex(t[DECRYPT_KEY][0]) == p.decryptKey.value)
  {
    var t := PathTable(text, p);
    if p.path != [] {
      assert t[PATH] == EncodeAll(text, p.path);
      assert DecodeAll(text, t[PATH]) == p.path;
    }
  }

  /** A path that is written and read, also as a link, comes back as it was. */
  method NpathRoundTrip(b: Bech32, text: Text, p: Npath, asLink: bool) returns (r: Result<Npath, CodeError>)
    requires Lawful(b) && Canonical(text, p)
    ensures if Encodable(text, p) && Fits("npath", EncodedPath(text, p))
      then r == Ok(if HasKey(p) then p else p.(decryptKey := None))
      else r.Err?
  {
    var code := NpathEncode(b, text, p);
    if code.Err? {
      return Err(code.error);
    }
    var given := if asLink then "hashtree:" + code.value else code.value;
    StripsTo(code.value, asLink);
    r := NpathDecode(b, text, given);
  }
}
