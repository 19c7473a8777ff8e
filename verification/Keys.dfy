/**
 Index keys: strings of 16-bit code units, their order, the escaping that turns a
 key into a directory entry name, and the end bound of a prefix search.
 */
module Keys {

  type Unit = u: int | 0 <= u < 0x1_0000
  type Key = seq<Unit>

  const SLASH: Unit := 0x2F
  const PERCENT: Unit := 0x25
  const NUL: Unit := 0

  // ------------------------------------------------------------------ order

  /** The order of the `<` operator on strings: lexicographic on code units. */
  predicate Less(a: Key, b: Key) {
    if |b| == 0 then false
    else if |a| == 0 then true
    else a[0] < b[0] || (a[0] == b[0] && Less(a[1..], b[1..]))
  }

  predicate Leq(a: Key, b: Key) {
    !Less(b, a)
  }

  /** The strings agree up to a place where the first ends or is smaller. */
  ghost predicate SmallerAt(a: Key, b: Key, k: nat) {
    && k <= |a| && k < |b|
    && (forall j :: 0 <= j < k ==> a[j] == b[j])
    && (k < |a| ==> a[k] < b[k])
  }

  lemma {:induction false} SmallerIsLess(a: Key, b: Key, k: nat)
    requires SmallerAt(a, b, k)
    ensures Less(a, b)
  {
    if k > 0 {
      SmallerIsLess(a[1..], b[1..], k - 1);
    }
  }

  lemma {:induction false} LessIsSmaller(a: Key, b: Key)
    requires Less(a, b)
    ensures exists k: nat :: SmallerAt(a, b, k)
  {
    if |a| > 0 && a[0] == b[0] {
      LessIsSmaller(a[1..], b[1..]);
      var k: nat :| SmallerAt(a[1..], b[1..], k);
      assert SmallerAt(a, b, k + 1) by {
        assert forall j :: 1 <= j < k + 1 ==> a[j] == a[1..][j - 1] && b[j] == b[1..][j - 1];
      }
    } else {
      assert SmallerAt(a, b, 0);
    }
  }

  /** A string comes before another exactly if it is a proper beginning of it or smaller at
      the first place where the two differ. */
  lemma LessIsLexicographic(a: Key, b: Key)
    ensures Less(a, b) <==> exists k: nat :: SmallerAt(a, b, k)
  {
    if Less(a, b) {
      LessIsSmaller(a, b);
    }
    if k: nat :| SmallerAt(a, b, k) {
      SmallerIsLess(a, b, k);
    }
  }

  lemma {:induction false} LessTransitive(a: Key, b: Key, c: Key)
    requires Less(a, b) && Less(b, c)
    ensures Less(a, c)
  {
    if |a| > 0 && a[0] == b[0] == c[0] {
      LessTransitive(a[1..], b[1..], c[1..]);
    }
  }

  lemma {:induction false} LessTotal(a: Key, b: Key)
    ensures Less(a, b) || a == b || Less(b, a)
    ensures !(Less(a, b) && Less(b, a))
    ensures !Less(a, a)
  {
    if |a| > 0 {
      LessTotal(a[1..], a[1..]);
      if |b| > 0 {
        LessTotal(a[1..], b[1..]);
        if a[0] == b[0] && a[1..] == b[1..] {
          assert a == [a[0]] + a[1..] && b == [b[0]] + b[1..];
        }
      }
    }
  }

  /** `Less` and `Leq` chain in the two mixed ways, and `Leq` with itself. */
  lemma LeqChains(a: Key, b: Key, c: Key)
    ensures Leq(a, b) && Less(b, c) ==> Less(a, c)
    ensures Less(a, b) && Leq(b, c) ==> Less(a, c)
    ensures Leq(a, b) && Leq(b, c) ==> Leq(a, c)
  {
    LessTotal(a, b);
    LessTotal(b, c);
    LessTotal(a, c);
    if Less(a, b) && Less(b, c) {
      LessTransitive(a, b, c);
    }
    if Less(c, a) && Less(a, b) {
      LessTransitive(c, a, b);
    }
  }

  // --------------------------------------------------------------- escaping

  /** `s.replace(/u/g, code)`: every occurrence of one code unit. */
  function ReplaceUnit(s: Key, u: Unit, code: Key): Key {
    if s == [] then []
    else (if s[0] == u then code else [s[0]]) + ReplaceUnit(s[1..], u, code)
  }

  /** The three passes of the escaper, in the source's order. */
  function EscapeKey(key: Key): Key {
    ReplaceUnit(ReplaceUnit(ReplaceUnit(key, PERCENT, [0x25, 0x32, 0x35]), SLASH, [0x25, 0x32, 0x46]), NUL, [0x25, 0x30, 0x30])
  }

  /** `s.replace(/%xy/g, [plain])`, scanning left to right without overlap; with
      `anyCase` the last letter may also be the lower-case one. */
  function ReplaceTriple(s: Key, x: Unit, y: Unit, anyCase: bool, plain: Unit): Key {
    if |s| >= 3 && s[0] == PERCENT && s[1] == x && (s[2] == y || (anyCase && y == 0x46 && s[2] == 0x66)) then
      [plain] + ReplaceTriple(s[3..], x, y, anyCase, plain)
    else if s == [] then []
    else [s[0]] + ReplaceTriple(s[1..], x, y, anyCase, plain)
  }

  /** The pass that removes code number `stage`: `%2F` (3), `%00` (2) or `%25` (1). */
  function DecodeStage(s: Key, stage: nat): Key {
    if stage == 3 then ReplaceTriple(s, 0x32, 0x46, true, SLASH)
    else if stage == 2 then ReplaceTriple(s, 0x30, 0x30, true, NUL)
    else ReplaceTriple(s, 0x32, 0x35, false, PERCENT)
  }

  /** The three passes of the unescaper, in the source's order. */
  function UnescapeKey(name: Key): Key {
    DecodeStage(DecodeStage(DecodeStage(name, 3), 2), 1)
  }

  /** One code unit as it looks while `stage` of the three codes are still escaped:
      at stage 3 all of them, then `/`, NUL and `%` become themselves in turn. */
  function Coded(u: Unit, stage: nat): Key {
    if u == PERCENT && stage >= 1 then [0x25, 0x32, 0x35]
    else if u == NUL && stage >= 2 then [0x25, 0x30, 0x30]
    else if u == SLASH && stage >= 3 then [0x25, 0x32, 0x46]
    else [u]
  }

  function CodedKey(key: Key, stage: nat): Key {
    if key == [] then [] else Coded(key[0], stage) + CodedKey(key[1..], stage)
  }

  lemma {:induction false} ReplaceUnitAppend(a: Key, b: Key, u: Unit, code: Key)
    ensures ReplaceUnit(a + b, u, code) == ReplaceUnit(a, u, code) + ReplaceUnit(b, u, code)
  {
    if a == [] {
      assert a + b == b;
    } else {
      assert (a + b)[1..] == a[1..] + b;
      ReplaceUnitAppend(a[1..], b, u, code);
    }
  }

  lemma ReplaceUnitShort(s: Key, u: Unit, code: Key)
    requires 1 <= |s| <= 3 && u !in s
    ensures ReplaceUnit(s, u, code) == s
  {
    if |s| > 1 {
      assert ReplaceUnit(s[1..], u, code) == s[1..] by {
        ReplaceUnitShort(s[1..], u, code);
      }
    }
  }

  lemma {:induction false} EscapeIsCoded(key: Key)
    ensures EscapeKey(key) == CodedKey(key, 3)
  {
    if key != [] {
      var u := key[0];
      var p1 := if u == PERCENT then [0x25, 0x32, 0x35] else [u];
      var p2 := if u == SLASH then [0x25, 0x32, 0x46] else p1;
      EscapeIsCoded(key[1..]);
      var r1 := ReplaceUnit(key[1..], PERCENT, [0x25, 0x32, 0x35]);
      var r2 := ReplaceUnit(r1, SLASH, [0x25, 0x32, 0x46]);
      ReplaceUnitAppend(p1, r1, SLASH, [0x25, 0x32, 0x46]);
      assert ReplaceUnit(p1, SLASH, [0x25, 0x32, 0x46]) == p2 by {
        if u != SLASH { ReplaceUnitShort(p1, SLASH, [0x25, 0x32, 0x46]); }
      }
      ReplaceUnitAppend(p2, r2, NUL, [0x25, 0x30, 0x30]);
      assert ReplaceUnit(p2, NUL, [0x25, 0x30, 0x30]) == Coded(u, 3) by {
        if u != NUL { ReplaceUnitShort(p2, NUL, [0x25, 0x30, 0x30]); }
      }
    }
  }

  /** Two units that are not `%` and follow one that starts no match are copied. */
  lemma CopyTriple(u: Unit, v: Unit, rest: Key, x: Unit, y: Unit, anyCase: bool, plain: Unit)
    requires u != PERCENT && v != PERCENT
    requires !(u == x && (v == y || (anyCase && y == 0x46 && v == 0x66)))
    ensures ReplaceTriple([PERCENT, u, v] + rest, x, y, anyCase, plain)
            == [PERCENT, u, v] + ReplaceTriple(rest, x, y, anyCase, plain)
  {
    var s := [PERCENT, u, v] + rest;
    assert s[1..] == [u, v] + rest;
    assert s[1..][1..] == [v] + rest;
    assert s[1..][1..][1..] == rest;
    assert ReplaceTriple(s[1..][1..], x, y, anyCase, plain) == [v] + ReplaceTriple(rest, x, y, anyCase, plain);
    assert ReplaceTriple(s[1..], x, y, anyCase, plain) == [u] + ReplaceTriple(s[1..][1..], x, y, anyCase, plain);
  }

  /** A pass decodes its own code and copies the others: a triple never straddles
      two coded units, because `%` only ever starts one. */
  lemma DecodeUnit(u: Unit, rest: Key, stage: nat)
    requires 1 <= stage <= 3
    ensures DecodeStage(Coded(u, stage) + rest, stage) == Coded(u, stage - 1) + DecodeStage(rest, stage)
  {
    var s := Coded(u, stage) + rest;
    if |Coded(u, stage)| == 1 {
      assert s[1..] == rest;
    } else {
      assert s[3..] == rest;
      assert s == [PERCENT, Coded(u, stage)[1], Coded(u, stage)[2]] + rest;
      if u == PERCENT && stage == 3 {
        CopyTriple(0x32, 0x35, rest, 0x32, 0x46, true, SLASH);
      } else if u == PERCENT && stage == 2 {
        CopyTriple(0x32, 0x35, rest, 0x30, 0x30, true, NUL);
      } else if u == NUL && stage == 3 {
        CopyTriple(0x30, 0x30, rest, 0x32, 0x46, true, SLASH);
      }
    }
  }

  lemma {:induction false} DecodePass(key: Key, stage: nat)
    requires 1 <= stage <= 3
    ensures DecodeStage(CodedKey(key, stage), stage) == CodedKey(key, stage - 1)
  {
    if key != [] {
      DecodeUnit(key[0], CodedKey(key[1..], stage), stage);
      DecodePass(key[1..], stage);
    }
  }

  /** Unescaping undoes escaping, for every string. */
  lemma EscapeRoundTrip(key: Key)
    ensures UnescapeKey(EscapeKey(key)) == key
  {
    EscapeIsCoded(key);
    DecodePass(key, 3);
    DecodePass(key, 2);
    DecodePass(key, 1);
    CodedNothing(key);
  }

  lemma {:induction false} CodedNothing(key: Key)
    ensures CodedKey(key, 0) == key
  {
    if key != [] {
      CodedNothing(key[1..]);
    }
  }

  /** An escaped name holds no `/` and no NUL, and only the empty key has an empty
      name: a listing drops nothing but the empty key. */
  lemma {:induction false} EscapedNameIsSafe(key: Key)
    ensures SLASH !in EscapeKey(key) && NUL !in EscapeKey(key)
    ensures EscapeKey(key) == [] <==> key == []
  {
    EscapeIsCoded(key);
    if key != [] {
      EscapedNameIsSafe(key[1..]);
      EscapeIsCoded(key[1..]);
    }
  }

  // ----------------------------------------------------------------- prefix

  /** The end bound of a prefix search: the last code unit plus one, wrapping at
      16 bits as `String.fromCharCode` does. */
  function IncrementPrefix(p: Key): Key {
    if p == [] then p else p[..|p| - 1] + [(p[|p| - 1] as int + 1) % 0x1_0000]
  }

  /** [p, IncrementPrefix(p)) is exactly the set of strings that begin with p. */
  lemma {:induction false} PrefixInterval(p: Key, s: Key)
    requires p != [] && p[|p| - 1] < 0xFFFF
    ensures p <= s <==> Leq(p, s) && Less(s, IncrementPrefix(p))
  {
    var e := IncrementPrefix(p);
    if |p| == 1 {
      assert e == [p[0] + 1];
      if s != [] {
        assert p[1..] == [] && e[1..] == [];
        assert !Less(s[1..], p[1..]) && !Less(s[1..], e[1..]);
        assert p <= s <==> p[0] == s[0];
      }
    } else if s != [] {
      var p', s' := p[1..], s[1..];
      assert IncrementPrefix(p') == e[1..];
      PrefixInterval(p', s');
      assert p <= s <==> p[0] == s[0] && p' <= s' by {
        assert p == [p[0]] + p' && s == [s[0]] + s';
      }
    }
  }

  /** At the two ends the interval is empty: for the empty prefix, and when the
      last code unit wraps around. */
  lemma {:induction false} PrefixIntervalEmpty(p: Key, s: Key)
    requires p == [] || p[|p| - 1] == 0xFFFF
    ensures !(Leq(p, s) && Less(s, IncrementPrefix(p)))
  {
    if |p| == 1 {
      assert IncrementPrefix(p) == [0];
    } else if |p| > 1 && s != [] {
      assert IncrementPrefix(p[1..]) == IncrementPrefix(p)[1..];
      PrefixIntervalEmpty(p[1..], s[1..]);
    }
  }
}
