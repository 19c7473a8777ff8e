/**
 The index keys of stored events: hexadecimal numbers of fixed width, reversed timestamps,
 and keys whose order is newest first.
 */
module EventKeys {
  import opened Keys
  import opened Wrappers

  const COLON: Unit := 0x3A
  const MINUS: Unit := 0x2D
  const MAX_U64: nat := 0xFFFF_FFFF_FFFF_FFFF
  const MAX_SAFE: nat := 0x1F_FFFF_FFFF_FFFF

  // ------------------------------------------------------------ hexadecimal

  function Digit(n: nat): Unit
    requires n < 16
  {
    if n < 10 then 0x30 + n else 0x61 + n - 10
  }

  function DigitValue(u: Unit): Option<nat> {
    if 0x30 <= u < 0x3A then Some(u - 0x30)
    else if 0x61 <= u < 0x67 then Some(u - 0x61 + 10)
    else if 0x41 <= u < 0x47 then Some(u - 0x41 + 10)
    else None
  }

  /** The digits of a number without leading zeros. */
  function ToHex(n: nat): Key {
    if n < 16 then [Digit(n)] else ToHex(n / 16) + [Digit(n % 16)]
  }

  function PadStart(s: Key, width: nat): Key {
    if |s| >= width then s else Zeros(width - |s|) + s
  }

  function Zeros(n: nat): (r: Key)
    ensures |r| == n
  {
    if n == 0 then [] else [0x30] + Zeros(n - 1)
  }

  /** The last `width` digits of a number. */
  function Fixed(n: nat, width: nat): (r: Key)
    ensures |r| == width
  {
    if width == 0 then [] else Fixed(n / 16, width - 1) + [Digit(n % 16)]
  }

  function Pow16(width: nat): (r: nat)
    ensures r >= 1
  {
    if width == 0 then 1 else 16 * Pow16(width - 1)
  }

  function ParseHex(s: Key): Option<nat> {
    if s == [] then None
    else
      var last := DigitValue(s[|s| - 1]);
      var rest := if |s| == 1 then Some(0) else ParseHex(s[..|s| - 1]);
      if last.Some? && rest.Some? then Some(16 * rest.value + last.value) else None
  }

  lemma {:induction false} FixedZero(width: nat)
    ensures Fixed(0, width) == Zeros(width)
  {
    if width > 0 {
      FixedZero(width - 1);
      ZerosAppend(width - 1);
    }
  }

  lemma {:induction false} ZerosAppend(n: nat)
    ensures Zeros(n) + [0x30] == [0x30] + Zeros(n)
  {
    if n > 0 {
      ZerosAppend(n - 1);
      assert Zeros(n) + [0x30] == [0x30] + (Zeros(n - 1) + [0x30]);
    }
  }

  /** A number that fits is padded to exactly its last `width` digits. */
  lemma {:induction false} PaddedIsFixed(n: nat, width: nat)
    requires n < Pow16(width) && width > 0
    ensures PadStart(ToHex(n), width) == Fixed(n, width) && |ToHex(n)| <= width
  {
    if n < 16 {
      FixedZero(width - 1);
      assert n / 16 == 0 && n % 16 == n;
      if width == 1 {
        assert Fixed(n, 1) == Fixed(0, 0) + [Digit(n)];
      }
    } else {
      PaddedIsFixed(n / 16, width - 1);
      var high := ToHex(n / 16);
      assert Zeros(width - |ToHex(n)|) + (high + [Digit(n % 16)]) == (Zeros(width - 1 - |high|) + high) + [Digit(n % 16)];
    }
  }

  lemma {:induction false} ParseFixed(n: nat, width: nat)
    requires n < Pow16(width) && width > 0
    ensures ParseHex(Fixed(n, width)) == Some(n)
  {
    var s := Fixed(n, width);
    assert s[..width - 1] == Fixed(n / 16, width - 1) && s[width - 1] == Digit(n % 16);
    if width > 1 {
      ParseFixed(n / 16, width - 1);
    }
  }

  /** Keys of the same length compare like their first difference. */
  lemma {:induction false} LessAppend(a: Key, b: Key, x: Key, y: Key)
    requires |a| == |b|
    ensures Less(a + x, b + y) <==> Less(a, b) || (a == b && Less(x, y))
  {
    if a == [] {
      assert a + x == x && b + y == y;
    } else {
      assert (a + x)[1..] == a[1..] + x && (b + y)[1..] == b[1..] + y;
      LessAppend(a[1..], b[1..], x, y);
      assert a == [a[0]] + a[1..] && b == [b[0]] + b[1..];
    }
  }

  lemma LessDigit(m: nat, n: nat)
    requires m < 16 && n < 16
    ensures Less([Digit(m)], [Digit(n)]) <==> m < n
    ensures Digit(m) == Digit(n) <==> m == n
  {
  }

  /** Numbers of fixed width are ordered as their values. */
  lemma {:induction false} FixedOrder(m: nat, n: nat, width: nat)
    requires m < Pow16(width) && n < Pow16(width)
    ensures Less(Fixed(m, width), Fixed(n, width)) <==> m < n
    ensures Fixed(m, width) == Fixed(n, width) <==> m == n
  {
    if width > 0 {
      FixedOrder(m / 16, n / 16, width - 1);
      LessAppend(Fixed(m / 16, width - 1), Fixed(n / 16, width - 1), [Digit(m % 16)], [Digit(n % 16)]);
      LessDigit(m % 16, n % 16);
      FixedAppend(Fixed(m / 16, width - 1), Fixed(n / 16, width - 1), Digit(m % 16), Digit(n % 16));
    }
  }

  lemma FixedAppend(a: Key, b: Key, x: Unit, y: Unit)
    requires |a| == |b|
    ensures a + [x] == b + [y] <==> a == b && x == y
  {
    if a + [x] == b + [y] {
      assert (a + [x])[..|a|] == a && (b + [y])[..|a|] == b;
      assert (a + [x])[|a|] == x && (b + [y])[|a|] == y;
    }
  }

  // -------------------------------------------------------------- timestamps

  lemma Pow16Of16()
    ensures Pow16(16) == MAX_U64 + 1
  {
    assert Pow16(4) == 65536;
    assert Pow16(8) == 65536 * 65536;
    assert Pow16(12) == 65536 * 65536 * 65536;
  }

  function PadKind(kind: nat): Key {
    PadStart(ToHex(kind), 8)
  }

  /** Kinds of 32 bits are padded to eight digits, and ordered as the numbers. */
  lemma KindOrder(j: nat, k: nat)
    requires j < 0x1_0000_0000 && k < 0x1_0000_0000
    ensures |PadKind(j)| == |PadKind(k)| == 8
    ensures Less(PadKind(j), PadKind(k)) <==> j < k
  {
    assert Pow16(4) == 65536;
    assert Pow16(8) == 65536 * 65536;
    PaddedIsFixed(j, 8);
    PaddedIsFixed(k, 8);
    FixedOrder(j, k, 8);
  }

  /** Past the range of 64 bits the difference is negative and gets a sign. */
  function ReverseTimestamp(createdAt: nat): Key {
    if createdAt <= MAX_U64 then PadStart(ToHex(MAX_U64 - createdAt), 16)
    else PadStart([MINUS] + ToHex(createdAt - MAX_U64), 16)
  }

  /** Reversed timestamps have sixteen digits and are strictly antitone in the time. */
  lemma ReversedOrder(s: nat, t: nat)
    requires s <= MAX_U64 && t <= MAX_U64
    ensures |ReverseTimestamp(s)| == |ReverseTimestamp(t)| == 16
    ensures Less(ReverseTimestamp(s), ReverseTimestamp(t)) <==> s > t
    ensures ReverseTimestamp(s) == ReverseTimestamp(t) <==> s == t
  {
    Pow16Of16();
    PaddedIsFixed(MAX_U64 - s, 16);
    PaddedIsFixed(MAX_U64 - t, 16);
    FixedOrder(MAX_U64 - s, MAX_U64 - t, 16);
  }

  lemma ReversedParses(t: nat)
    requires t <= MAX_U64
    ensures ParseHex(ReverseTimestamp(t)) == Some(MAX_U64 - t)
  {
    Pow16Of16();
    PaddedIsFixed(MAX_U64 - t, 16);
    ParseFixed(MAX_U64 - t, 16);
  }

  // -------------------------------------------------------------------- keys

  function TimeKey(createdAt: nat, id: Key): Key {
    ReverseTimestamp(createdAt) + [COLON] + id
  }

  /** Time keys are ordered newest first, and by id where the times agree. */
  lemma TimeKeyOrder(s: nat, a: Key, t: nat, b: Key)
    requires s <= MAX_U64 && t <= MAX_U64
    ensures Less(TimeKey(s, a), TimeKey(t, b)) <==> s > t || (s == t && Less(a, b))
    ensures TimeKey(s, a) == TimeKey(t, b) <==> s == t && a == b
  {
    ReversedOrder(s, t);
    FixedAppend(ReverseTimestamp(s), ReverseTimestamp(t), COLON, COLON);
    LessAppend(ReverseTimestamp(s), ReverseTimestamp(t), [COLON], [COLON]);
    LessAppend(ReverseTimestamp(s) + [COLON], ReverseTimestamp(t) + [COLON], a, b);
    if TimeKey(s, a) == TimeKey(t, b) {
      assert TimeKey(s, a)[..16] == ReverseTimestamp(s) && TimeKey(t, b)[..16] == ReverseTimestamp(t);
      assert TimeKey(s, a)[17..] == a && TimeKey(t, b)[17..] == b;
    }
  }

  /** The pieces between colons. */
  function SplitAtColons(s: Key): (parts: seq<Key>)
    ensures |parts| >= 1
  {
    if s == [] then [[]]
    else
      var rest := SplitAtColons(s[1..]);
      if s[0] == COLON then [[]] + rest else [[s[0]] + rest[0]] + rest[1..]
  }

  lemma {:induction false} SplitNoColon(s: Key)
    requires COLON !in s
    ensures SplitAtColons(s) == [s]
  {
    if s != [] {
      SplitNoColon(s[1..]);
      assert [s[0]] + s[1..] == s;
    }
  }

  lemma {:induction false} SplitAppend(a: Key, b: Key)
    ensures SplitAtColons(a + [COLON] + b) == SplitAtColons(a) + SplitAtColons(b)
  {
    if a == [] {
      assert a + [COLON] + b == [COLON] + b;
      assert ([COLON] + b)[1..] == b;
    } else {
      var s := a + [COLON] + b;
      assert s[1..] == a[1..] + [COLON] + b && s[0] == a[0];
      SplitAppend(a[1..], b);
    }
  }

  /** The time in a key: the second piece from the end, reversed back. */
  function CreatedAtFromIndexKey(key: Key): Option<int> {
    var parts := SplitAtColons(key);
    if |parts| < 2 then None
    else
      var reversed := ParseHex(parts[|parts| - 2]);
      if reversed.None? || MAX_U64 - reversed.value > MAX_SAFE then None
      else Some(MAX_U64 - reversed.value)
  }

  lemma {:induction false} HexHasNoColon(n: nat)
    ensures COLON !in ToHex(n)
  {
    if n >= 16 {
      HexHasNoColon(n / 16);
    }
  }

  lemma {:induction false} ZerosHaveNoColon(n: nat)
    ensures COLON !in Zeros(n)
  {
    if n > 0 {
      ZerosHaveNoColon(n - 1);
    }
  }

  lemma PaddedHasNoColon(n: nat, width: nat)
    ensures COLON !in PadStart(ToHex(n), width)
  {
    HexHasNoColon(n);
    if |ToHex(n)| < width {
      ZerosHaveNoColon(width - |ToHex(n)|);
    }
  }

  lemma ReversedHasNoColon(t: nat)
    ensures COLON !in ReverseTimestamp(t)
  {
    if t <= MAX_U64 {
      PaddedHasNoColon(MAX_U64 - t, 16);
    } else {
      HexHasNoColon(t - MAX_U64);
      var digits := [MINUS] + ToHex(t - MAX_U64);
      if |digits| < 16 { ZerosHaveNoColon(16 - |digits|); }
    }
  }

  /** A sign anywhere makes a number unreadable. */
  lemma {:induction false} SignIsNoDigit(s: Key)
    requires MINUS in s
    ensures ParseHex(s).None?
  {
    var n := |s| - 1;
    if s[n] != MINUS {
      assert s == s[..n] + [s[n]];
      SignIsNoDigit(s[..n]);
    }
  }

  /** Reading a reversed timestamp: one past 64 bits has a sign. */
  lemma ReversedReads(t: nat)
    ensures var r := ParseHex(ReverseTimestamp(t)); if t <= MAX_U64 then r == Some(MAX_U64 - t) else r.None?
  {
    if t <= MAX_U64 {
      ReversedParses(t);
    } else {
      var digits := [MINUS] + ToHex(t - MAX_U64);
      assert digits[0] == MINUS;
      if |digits| < 16 {
        assert (Zeros(16 - |digits|) + digits)[16 - |digits|] == MINUS;
      }
      SignIsNoDigit(ReverseTimestamp(t));
    }
  }

  /** The time of an event is read back from its key, whatever stands in front of the time,
      if it is at most the largest safe integer, and otherwise the key cannot be read. */
  lemma CreatedAtRoundTrip(prefix: Key, createdAt: nat, id: Key)
    requires COLON !in id
    requires prefix == [] || prefix[|prefix| - 1] == COLON
    ensures CreatedAtFromIndexKey(prefix + TimeKey(createdAt, id)) == if createdAt <= MAX_SAFE then Some(createdAt) else None
  {
    var reversed := ReverseTimestamp(createdAt);
    ReversedHasNoColon(createdAt);
    SplitNoColon(reversed);
    SplitNoColon(id);
    SplitAppend(reversed, id);
    ReversedReads(createdAt);
    if prefix == [] {
      assert prefix + TimeKey(createdAt, id) == TimeKey(createdAt, id);
    } else {
      var front := prefix[..|prefix| - 1];
      assert prefix == front + [COLON];
      SplitAppend(front, TimeKey(createdAt, id));
      assert prefix + TimeKey(createdAt, id) == front + [COLON] + TimeKey(createdAt, id);
    }
  }

  /** The first `n` units are not below the digit 0. */
  ghost predicate DigitsUpTo(s: Key, n: nat) {
    n <= |s| && forall i :: 0 <= i < n ==> s[i] >= 0x30
  }

  lemma {:induction false} FixedDigits(n: nat, width: nat)
    ensures DigitsUpTo(Fixed(n, width), width)
  {
    if width > 0 {
      FixedDigits(n / 16, width - 1);
    }
  }

  /** A sign behind zeros sorts before digits. */
  lemma {:induction false} SignSortsFirst(z: nat, rest: Key, b: Key)
    requires DigitsUpTo(b, z + 1)
    ensures Less(Zeros(z) + [MINUS] + rest, b)
  {
    var a := Zeros(z) + [MINUS] + rest;
    if z == 0 {
      assert a[0] == MINUS;
    } else {
      assert a[0] == 0x30 && a[1..] == Zeros(z - 1) + [MINUS] + rest;
      SignSortsFirst(z - 1, rest, b[1..]);
    }
  }

  /** Past 64 bits a timestamp is a sign behind at most fourteen zeros. */
  lemma SignedTimestamp(t: nat) returns (z: nat, digits: Key)
    requires t > MAX_U64
    ensures z < 16 && ReverseTimestamp(t) == Zeros(z) + [MINUS] + digits
  {
    digits := ToHex(t - MAX_U64);
    var signed := [MINUS] + digits;
    z := if |signed| < 16 then 16 - |signed| else 0;
    assert Zeros(z) + signed == Zeros(z) + [MINUS] + digits;
  }

  lemma DigitsBefore(s: Key, rest: Key, n: nat, m: nat)
    requires DigitsUpTo(s, n) && m <= n
    ensures DigitsUpTo(s + rest, m)
  {
  }

  lemma TimestampDigits(t: nat)
    requires t <= MAX_U64
    ensures DigitsUpTo(ReverseTimestamp(t), 16)
  {
    Pow16Of16();
    PaddedIsFixed(MAX_U64 - t, 16);
    FixedDigits(MAX_U64 - t, 16);
  }

  lemma SignedKeyFirst(x: Key, z: nat, digits: Key, a: Key, y: Key, b: Key)
    requires z < 16 && x == Zeros(z) + [MINUS] + digits && DigitsUpTo(y, 16)
    ensures Less(x + [COLON] + a, y + [COLON] + b)
  {
    var more, key := digits + [COLON] + a, y + [COLON] + b;
    assert key == y + ([COLON] + b);
    DigitsBefore(y, [COLON] + b, 16, z + 1);
    SignSortsFirst(z, more, key);
    assert x + [COLON] + a == Zeros(z) + [MINUS] + more;
  }

  /** Times that cannot be read back sort before all others. */
  lemma LateSortsFirst(s: nat, a: Key, t: nat, b: Key)
    requires s > MAX_SAFE >= t
    ensures Less(TimeKey(s, a), TimeKey(t, b))
  {
    if s <= MAX_U64 {
      TimeKeyOrder(s, a, t, b);
    } else {
      var z, digits := SignedTimestamp(s);
      TimestampDigits(t);
      SignedKeyFirst(ReverseTimestamp(s), z, digits, a, ReverseTimestamp(t), b);
    }
  }

  lemma PrefixCons(x: Key, y: Key)
    requires x != [] && y != []
    ensures x <= y <==> x[0] == y[0] && x[1..] <= y[1..]
  {
    assert x == [x[0]] + x[1..] && y == [y[0]] + y[1..];
    if x[0] == y[0] && x[1..] <= y[1..] {
      assert y[1..] == x[1..] + y[1..][|x| - 1..];
      assert y == x + y[1..][|x| - 1..];
    }
    if x <= y {
      assert x[1..] == y[1..][..|x| - 1];
    }
  }

  lemma FirstUnit(a: Key, more: Key)
    requires a != [] && COLON !in a
    ensures (a + more)[0] != COLON
  {
    assert (a + more)[0] == a[0] && a[0] in a;
  }

  /** A piece followed by a colon begins a key only if it is the key's first piece. */
  lemma {:induction false} FirstPiece(a: Key, b: Key, rest: Key)
    requires COLON !in a && COLON !in b
    ensures a + [COLON] <= b + [COLON] + rest <==> a == b
  {
    PrefixCons(a + [COLON], b + [COLON] + rest);
    if a == [] || b == [] {
      if a != [] { FirstUnit(a, [COLON]); }
      if b != [] { FirstUnit(b, [COLON] + rest); }
      assert b + [COLON] + rest == b + ([COLON] + rest);
      assert [] + [COLON] == [COLON];
    } else {
      assert (a + [COLON])[1..] == a[1..] + [COLON];
      assert (b + [COLON] + rest)[1..] == b[1..] + [COLON] + rest;
      FirstPiece(a[1..], b[1..], rest);
      assert a == [a[0]] + a[1..] && b == [b[0]] + b[1..];
    }
  }

  lemma {:induction false} ParseZeros(z: nat)
    requires z > 0
    ensures ParseHex(Zeros(z)) == Some(0)
  {
    if z > 1 {
      ZerosAppend(z - 1);
      assert Zeros(z)[..z - 1] == Zeros(z - 1) && Zeros(z)[z - 1] == 0x30;
      ParseZeros(z - 1);
    }
  }

  /** Reading one digit more. */
  lemma ParseOneMore(front: Key, v: nat, k: nat)
    requires k < 16 && if front == [] then v == 0 else ParseHex(front) == Some(v)
    ensures ParseHex(front + [Digit(k)]) == Some(16 * v + k)
  {
    var s := front + [Digit(k)];
    assert s[..|s| - 1] == front && s[|s| - 1] == Digit(k);
  }

  /** Padding does not change the number that is read. */
  lemma {:induction false} ParsePadded(n: nat, z: nat)
    ensures ParseHex(Zeros(z) + ToHex(n)) == Some(n)
  {
    if n < 16 {
      if z > 0 { ParseZeros(z); }
      ParseOneMore(Zeros(z), 0, n);
    } else {
      var high := ToHex(n / 16);
      ParsePadded(n / 16, z);
      ParseOneMore(Zeros(z) + high, n / 16, n % 16);
      assert Zeros(z) + (high + [Digit(n % 16)]) == Zeros(z) + high + [Digit(n % 16)];
    }
  }

  /** Padded kinds differ when the kinds do, of whatever size they are. */
  lemma PadKindInjective(j: nat, k: nat)
    ensures PadKind(j) == PadKind(k) <==> j == k
  {
    PadKindParses(j);
    PadKindParses(k);
  }

  lemma PadKindParses(k: nat)
    ensures ParseHex(PadKind(k)) == Some(k)
  {
    var digits := ToHex(k);
    if |digits| >= 8 {
      assert Zeros(0) + digits == digits;
      ParsePadded(k, 0);
    } else {
      ParsePadded(k, 8 - |digits|);
    }
  }
}
