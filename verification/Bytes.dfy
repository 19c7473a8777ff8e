/** Byte strings. */
module Bytes {
  type Byte = b: int | 0 <= b < 256

  type Bytes = seq<Byte>

  function Concat(parts: seq<Bytes>): Bytes {
    if parts == [] then [] else parts[0] + Concat(parts[1..])
  }

  lemma {:induction false} ConcatAppend(a: seq<Bytes>, b: seq<Bytes>)
    ensures Concat(a + b) == Concat(a) + Concat(b)
  {
    if a == [] {
      assert a + b == b;
    } else {
      assert (a + b)[0] == a[0] && (a + b)[1..] == a[1..] + b;
      ConcatAppend(a[1..], b);
    }
  }

  lemma ConcatOne(p: Bytes)
    ensures Concat([p]) == p
  {
    assert Concat([p]) == p + [];
  }

  lemma ConcatSplit(parts: seq<Bytes>, i: nat)
    requires i < |parts|
    ensures Concat(parts[..i + 1]) == Concat(parts[..i]) + parts[i]
    ensures |Concat(parts[..i])| + |parts[i]| <= |Concat(parts)|
  {
    assert parts[..i + 1] == parts[..i] + [parts[i]];
    ConcatAppend(parts[..i], [parts[i]]);
    ConcatOne(parts[i]);
    assert parts == parts[..i + 1] + parts[i + 1..];
    ConcatAppend(parts[..i + 1], parts[i + 1..]);
  }

  /** Copy the parts one after the other into one array. */
  method Merge(parts: seq<Bytes>, totalLength: nat) returns (merged: Bytes)
    requires totalLength == |Concat(parts)|
    ensures merged == Concat(parts)
  {
    var target := new Byte[totalLength](_ => 0);
    var offset := 0;
    assert parts[..0] == [];
    for i := 0 to |parts|
      invariant offset <= totalLength && target[..offset] == Concat(parts[..i])
    {
      ConcatSplit(parts, i);
      ghost var before := target[..offset];
      forall k | 0 <= k < |parts[i]| {
        target[offset + k] := parts[i][k];
      }
      assert target[..offset] == before;
      assert target[offset..offset + |parts[i]|] == parts[i];
      offset := offset + |parts[i]|;
      assert target[..offset] == before + parts[i];
    }
    assert parts[..|parts|] == parts;
    merged := target[..];
  }

  lemma TakeMore(before: Bytes, data: Bytes, from: nat, to: nat)
    requires from <= to <= |data|
    ensures before + data[..from] + data[from..to] == before + data[..to]
  {
  }
}
