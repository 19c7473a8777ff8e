/**
 Reading a range of an encrypted file, and reading back what was written.
 */
module ReaderRange {
  import opened Bytes
  import opened Files
  import opened Reader
  import opened Wrappers

  function Clamp(n: int, low: nat, high: nat): (r: nat)
    requires low <= high
    ensures low <= r <= high
  {
    if n < low then low else if n > high then high else n
  }

  /** The bytes of `data` from `start` up to `end` or the end of the data. */
  function Range(data: Bytes, start: int, end: Option<int>): Bytes {
    var lo := Clamp(start, 0, |data|);
    data[lo..if end.None? then |data| else Clamp(end.value, lo, |data|)]
  }

  function Shift(end: Option<int>, amount: int): Option<int> {
    if end.None? then None else Some(end.value - amount)
  }

  lemma RangeAppend(before: Bytes, piece: Bytes, start: int, end: Option<int>)
    ensures Range(before + piece, start, end)
         == Range(before, start, end) + Range(piece, start - |before|, Shift(end, |before|))
  {
  }

  /** Nothing is left to collect once as many bytes are there as were asked for. */
  lemma RangeFull(before: Bytes, rest: Bytes, start: int, end: int)
    requires |Range(before, start, Some(end))| >= end - start
    ensures Range(before + rest, start, Some(end)) == Range(before, start, Some(end))
  {
    RangeAppend(before, rest, start, Some(end));
  }

  /** What is still wanted is never more than what may still be collected. */
  lemma RangeFits(before: Bytes, piece: Bytes, start: int, end: int)
    ensures |Range(piece, start - |before|, Some(end - |before|))| <= 0 ||
            |Range(piece, start - |before|, Some(end - |before|))| <= end - start - |Range(before, start, Some(end))|
  {
  }

  lemma RangeFromZero(data: Bytes, start: int, end: Option<int>)
    ensures Range(data, if start > 0 then start else 0, end) == Range(data, start, end)
  {
  }

  // ---------------------------------------------- what a range read returns

  /** The first bytes, where there is a limit. */
  function Cut(piece: Bytes, limit: Option<int>): (r: Bytes)
    requires limit.Some? ==> limit.value > 0
  {
    if limit.Some? && limit.value < |piece| then piece[..limit.value] else piece
  }

  /** A link is passed over if by its declared size it ends at or before the start. */
  predicate Passed(link: Link, position: nat, start: int) {
    link.size > 0 && position + link.size <= start
  }

  /** Where the next link begins: behind the bytes of a blob that was read, and otherwise
      where the declared size says. */
  function NextPosition(link: Link, part: Part, position: nat, start: int): nat {
    position + if part.Leaf? && !Passed(link, position, start) then |part.data| else link.size
  }

  /** What one link adds to a range, or the defect it runs into; `limit` is how much may
      still be collected. */
  function LinkRange(link: Link, part: Part, position: nat, start: int, end: Option<int>, limit: Option<int>): Result<Bytes, ReadError>
    requires limit.Some? ==> limit.value > 0
    decreases part
  {
    if link.key.None? then Err(MissingKey)
    else if Passed(link, position, start) then Ok([])
    else
      match part
      case Defect(error) => Err(error)
      case Leaf(data) => Ok(Cut(Range(data, start - position, Shift(end, position)), limit))
      case Inner(node, parts) =>
        var below := NodeRange(node.links, parts, if start > position then start - position else 0, Shift(end, position));
        if below.Err? then below else Ok(Cut(below.value, limit))
  }

  /** Nothing more is read once as many bytes are there as were asked for. */
  predicate Filled(count: nat, start: int, end: Option<int>) {
    end.Some? && count >= end.value - start
  }

  /** What the links from link `i` on add to a range, `count` bytes of which are there. */
  function RestRange(links: seq<Link>, parts: seq<Part>, i: nat, position: nat, count: nat, start: int, end: Option<int>): Result<Bytes, ReadError>
    requires |parts| == |links| && i <= |parts|
    decreases parts, |parts| - i
  {
    if i == |parts| || Filled(count, start, end) then Ok([])
    else
      var piece := LinkRange(links[i], parts[i], position, start, end, Shift(end, start + count));
      if piece.Err? then piece
      else
        var next := NextPosition(links[i], parts[i], position, start);
        var rest := RestRange(links, parts, i + 1, next, count + |piece.value|, start, end);
        if rest.Err? then rest else Ok(piece.value + rest.value)
  }

  /** The range of what lies below a node. */
  function NodeRange(links: seq<Link>, parts: seq<Part>, start: int, end: Option<int>): Result<Bytes, ReadError>
    decreases parts, |parts| + 1
  {
    if |parts| == |links| then RestRange(links, parts, 0, 0, 0, start, end) else Ok([])
  }

  function Asked(start: int, end: int): nat {
    if end > start then end - start else 0
  }

  /** Never more than asked for is returned, whatever the sizes. */
  lemma {:induction false} RestIsBounded(links: seq<Link>, parts: seq<Part>, i: nat, position: nat, count: nat, start: int, end: Option<int>)
    requires |parts| == |links| && i <= |parts| && end.Some? && count <= Asked(start, end.value)
    ensures var r := RestRange(links, parts, i, position, count, start, end); r.Ok? ==> count + |r.value| <= Asked(start, end.value)
    decreases |parts| - i
  {
    if i < |parts| && !Filled(count, start, end) {
      var limit := Shift(end, start + count);
      var piece := LinkRange(links[i], parts[i], position, start, end, limit);
      if piece.Ok? {
        PieceIsCut(links[i], parts[i], position, start, end, limit);
        RestIsBounded(links, parts, i + 1, NextPosition(links[i], parts[i], position, start), count + |piece.value|, start, end);
      }
    }
  }

  lemma PieceIsCut(link: Link, part: Part, position: nat, start: int, end: Option<int>, limit: Option<int>)
    requires limit.Some? && limit.value > 0
    ensures var r := LinkRange(link, part, position, start, end, limit); r.Ok? ==> |r.value| <= limit.value
  {
  }

  /** A read from the start without an end is the whole content or its first defect,
      whatever the sizes. */
  lemma {:induction false} WholeRest(c: Crypto, blobs: Blobs, links: seq<Link>, parts: seq<Part>, i: nat, position: nat, count: nat, start: int)
    requires Unfolds(c, blobs, links, parts) && i <= |parts| && start <= 0 && OutcomeTo(parts, i).Ok?
    ensures var r := RestRange(links, parts, i, position, count, start, None);
      if r.Ok? then OutcomeTo(parts, |parts|) == Ok(OutcomeTo(parts, i).value + r.value) else r == OutcomeTo(parts, |parts|)
    decreases parts, |parts| - i
  {
    if i < |parts| {
      UnfoldsAt(c, blobs, links, parts, i);
      WholeLink(c, blobs, links[i], parts[i], position, start);
      FirstDefect(parts, i);
      if Outcome(parts[i]).Ok? {
        var piece := Outcome(parts[i]).value;
        var next := NextPosition(links[i], parts[i], position, start);
        WholeRest(c, blobs, links, parts, i + 1, next, count + |piece|, start);
        var rest := RestRange(links, parts, i + 1, next, count + |piece|, start, None);
        if rest.Ok? {
          Reassociate(OutcomeTo(parts, i).value, piece, rest.value);
        }
      }
    } else {
      NothingMore(OutcomeTo(parts, i).value);
    }
  }

  lemma Reassociate(a: Bytes, b: Bytes, c: Bytes)
    ensures a + (b + c) == a + b + c
  {
  }

  lemma {:induction false} WholeLink(c: Crypto, blobs: Blobs, link: Link, part: Part, position: nat, start: int)
    requires UnfoldsLink(c, blobs, link, part) && start <= 0
    ensures LinkRange(link, part, position, start, None, None) == Outcome(part)
    decreases part
  {
    match part
    case Defect(_) =>
    case Leaf(data) => assert data[0..|data|] == data;
    case Inner(node, parts) => WholeRange(c, blobs, node.links, parts, 0);
  }

  lemma {:induction false} WholeRange(c: Crypto, blobs: Blobs, links: seq<Link>, parts: seq<Part>, start: int)
    requires Unfolds(c, blobs, links, parts) && start <= 0
    ensures NodeRange(links, parts, start, None) == OutcomeTo(parts, |parts|)
    decreases parts, |parts| + 1
  {
    WholeRest(c, blobs, links, parts, 0, 0, 0, start);
    var r := RestRange(links, parts, 0, 0, 0, start, None);
    if r.Ok? {
      assert [] + r.value == r.value;
    }
  }

  /** Where everything can be read a range read does not fail, whatever the sizes. */
  lemma {:induction false} ReadableRest(c: Crypto, blobs: Blobs, links: seq<Link>, parts: seq<Part>, i: nat, position: nat, count: nat,
                                        start: int, end: Option<int>)
    requires Unfolds(c, blobs, links, parts) && i <= |parts| && OutcomeTo(parts, |parts|).Ok?
    ensures RestRange(links, parts, i, position, count, start, end).Ok?
    decreases parts, |parts| - i
  {
    if i < |parts| && !Filled(count, start, end) {
      WholeParts(parts, i);
      UnfoldsAt(c, blobs, links, parts, i);
      var limit := Shift(end, start + count);
      ReadableLink(c, blobs, links[i], parts[i], position, start, end, limit);
      var piece := LinkRange(links[i], parts[i], position, start, end, limit).value;
      ReadableRest(c, blobs, links, parts, i + 1, NextPosition(links[i], parts[i], position, start), count + |piece|, start, end);
    }
  }

  lemma {:induction false} ReadableLink(c: Crypto, blobs: Blobs, link: Link, part: Part, position: nat, start: int, end: Option<int>, limit: Option<int>)
    requires UnfoldsLink(c, blobs, link, part) && Outcome(part).Ok? && (limit.Some? ==> limit.value > 0)
    ensures LinkRange(link, part, position, start, end, limit).Ok?
    decreases part
  {
    if part.Inner? {
      ReadableRest(c, blobs, part.node.links, part.parts, 0, 0, 0, if start > position then start - position else 0, Shift(end, position));
    }
  }

  // ------------------------------------------------------------- true sizes

  /** With true sizes a link adds the range of its content, if there is room for it. */
  lemma {:induction false} FaithfulLinkRange(c: Crypto, blobs: Blobs, link: Link, part: Part, position: nat, start: int, end: Option<int>, limit: Option<int>)
    requires UnfoldsLink(c, blobs, link, part) && FaithfulLink(link, part) && (limit.Some? ==> limit.value > 0)
    requires limit.Some? ==> |Range(Outcome(part).value, start - position, Shift(end, position))| <= limit.value
    ensures LinkRange(link, part, position, start, end, limit) == Ok(Range(Outcome(part).value, start - position, Shift(end, position)))
    ensures NextPosition(link, part, position, start) == position + link.size
    decreases part, 0
  {
    if Passed(link, position, start) {
      RangeBehind(Outcome(part).value, start - position, Shift(end, position));
    } else if part.Inner? {
      FaithfulRange(c, blobs, part.node.links, part.parts, if start > position then start - position else 0, Shift(end, position));
      RangeFromZero(Outcome(part).value, start - position, Shift(end, position));
    }
  }

  lemma RangeBehind(data: Bytes, start: int, end: Option<int>)
    requires start >= |data|
    ensures Range(data, start, end) == []
  {
  }

  /** What comes before a rest, unless the rest fails. */
  function Joined(before: Bytes, rest: Result<Bytes, ReadError>): Result<Bytes, ReadError> {
    if rest.Err? then rest else Ok(before + rest.value)
  }

  lemma JoinedTwice(a: Bytes, b: Bytes, rest: Result<Bytes, ReadError>)
    ensures Joined(a, Joined(b, rest)) == Joined(a + b, rest)
  {
    if rest.Ok? {
      Reassociate(a, b, rest.value);
    }
  }

  /** A read has gone as far as link `k`, having collected the range of the content so far. */
  ghost predicate ReadTo(links: seq<Link>, parts: seq<Part>, k: nat, start: int, end: Option<int>) {
    && |parts| == |links| && k <= |parts| && OutcomeTo(parts, k).Ok? && |OutcomeTo(parts, k).value| == SizeTo(links, k)
    && var before := Range(OutcomeTo(parts, k).value, start, end);
       NodeRange(links, parts, start, end) == Joined(before, RestRange(links, parts, k, SizeTo(links, k), |before|, start, end))
  }

  lemma ReadStarts(links: seq<Link>, parts: seq<Part>, k: nat, start: int, end: Option<int>)
    requires |parts| == |links| && k == 0
    ensures ReadTo(links, parts, k, start, end)
  {
    var r := RestRange(links, parts, k, k, k, start, end);
    if r.Ok? {
      assert [] + r.value == r.value;
    }
  }

  lemma RestUnrolls(links: seq<Link>, parts: seq<Part>, i: nat, position: nat, count: nat, start: int, end: Option<int>, piece: Bytes, next: nat)
    requires |parts| == |links| && i < |parts| && !Filled(count, start, end)
    requires LinkRange(links[i], parts[i], position, start, end, Shift(end, start + count)) == Ok(piece)
    requires next == NextPosition(links[i], parts[i], position, start)
    ensures RestRange(links, parts, i, position, count, start, end)
         == Joined(piece, RestRange(links, parts, i + 1, next, count + |piece|, start, end))
  {
  }

  /** One true link more changes the range of the content by what the link adds. */
  lemma {:induction false} TrueLink(c: Crypto, blobs: Blobs, link: Link, part: Part, before: Bytes, start: int, end: Option<int>)
    requires UnfoldsLink(c, blobs, link, part) && FaithfulLink(link, part) && !Filled(|Range(before, start, end)|, start, end)
    ensures var piece := Range(Outcome(part).value, start - |before|, Shift(end, |before|));
      && LinkRange(link, part, |before|, start, end, Shift(end, start + |Range(before, start, end)|)) == Ok(piece)
      && NextPosition(link, part, |before|, start) == |before| + link.size
      && Range(before + Outcome(part).value, start, end) == Range(before, start, end) + piece
    decreases part, 1
  {
    if end.Some? {
      RangeFits(before, Outcome(part).value, start, end.value);
    }
    FaithfulLinkRange(c, blobs, link, part, |before|, start, end, Shift(end, start + |Range(before, start, end)|));
    RangeAppend(before, Outcome(part).value, start, end);
  }

  /** Once as many bytes are there as were asked for, no link adds anything. */
  lemma ReadFilled(links: seq<Link>, parts: seq<Part>, k: nat, start: int, end: Option<int>)
    requires ReadTo(links, parts, k, start, end) && k < |parts| && FaithfulLink(links[k], parts[k])
    requires Filled(|Range(OutcomeTo(parts, k).value, start, end)|, start, end)
    ensures ReadTo(links, parts, k + 1, start, end)
  {
    RangeFull(OutcomeTo(parts, k).value, Outcome(parts[k]).value, start, end.value);
  }

  lemma ReadLonger(links: seq<Link>, parts: seq<Part>, k: nat, piece: Bytes, start: int, end: Option<int>)
    requires ReadTo(links, parts, k, start, end) && k < |parts| && FaithfulLink(links[k], parts[k])
    requires !Filled(|Range(OutcomeTo(parts, k).value, start, end)|, start, end)
    requires var content := OutcomeTo(parts, k).value; var before := Range(content, start, end);
      && LinkRange(links[k], parts[k], |content|, start, end, Shift(end, start + |before|)) == Ok(piece)
      && NextPosition(links[k], parts[k], |content|, start) == |content| + links[k].size
      && Range(content + Outcome(parts[k]).value, start, end) == before + piece
    ensures ReadTo(links, parts, k + 1, start, end)
  {
    var before, next := Range(OutcomeTo(parts, k).value, start, end), SizeTo(links, k + 1);
    RestUnrolls(links, parts, k, SizeTo(links, k), |before|, start, end, piece, next);
    JoinedTwice(before, piece, RestRange(links, parts, k + 1, next, |before| + |piece|, start, end));
  }

  lemma {:induction false} ReadNext(c: Crypto, blobs: Blobs, links: seq<Link>, parts: seq<Part>, k: nat, start: int, end: Option<int>)
    requires Unfolds(c, blobs, links, parts) && k < |parts| && ReadTo(links, parts, k, start, end)
    requires FaithfulLink(links[k], parts[k])
    ensures ReadTo(links, parts, k + 1, start, end)
    decreases parts, 0
  {
    UnfoldsAt(c, blobs, links, parts, k);
    var content, here := OutcomeTo(parts, k).value, Outcome(parts[k]).value;
    var before := Range(content, start, end);
    if Filled(|before|, start, end) {
      ReadFilled(links, parts, k, start, end);
    } else {
      TrueLink(c, blobs, links[k], parts[k], content, start, end);
      ReadLonger(links, parts, k, Range(here, start - |content|, Shift(end, |content|)), start, end);
    }
  }

  /** The links before link `k` lead somewhere and declare true sizes. */
  ghost predicate TrueBefore(links: seq<Link>, parts: seq<Part>, k: nat) {
    k <= |links| && k <= |parts| && forall j :: 0 <= j < k ==> FaithfulLink(links[j], parts[j])
  }

  lemma {:induction false} TrueRun(c: Crypto, blobs: Blobs, links: seq<Link>, parts: seq<Part>, k: nat, start: int, end: Option<int>)
    requires Unfolds(c, blobs, links, parts) && TrueBefore(links, parts, k)
    ensures ReadTo(links, parts, k, start, end)
    decreases parts, 1, k
  {
    SameLength(c, blobs, links, parts);
    if k == 0 {
      ReadStarts(links, parts, k, start, end);
    } else {
      TrueRun(c, blobs, links, parts, k - 1, start, end);
      ReadNext(c, blobs, links, parts, k - 1, start, end);
    }
  }

  /** With true sizes a range read is the range of the content. */
  lemma {:induction false} FaithfulRange(c: Crypto, blobs: Blobs, links: seq<Link>, parts: seq<Part>, start: int, end: Option<int>)
    requires Unfolds(c, blobs, links, parts) && Faithful(links, parts)
    ensures OutcomeTo(parts, |parts|).Ok?
    ensures NodeRange(links, parts, start, end) == Ok(Range(OutcomeTo(parts, |parts|).value, start, end))
    decreases parts, 2
  {
    SameLength(c, blobs, links, parts);
    AllTrue(links, parts);
    TrueRun(c, blobs, links, parts, |parts|, start, end);
    NothingMore(Range(OutcomeTo(parts, |parts|).value, start, end));
  }

  lemma AllTrue(links: seq<Link>, parts: seq<Part>)
    requires |parts| == |links| && Faithful(links, parts)
    ensures TrueBefore(links, parts, |parts|)
  {
    forall j | 0 <= j < |parts| ensures FaithfulLink(links[j], parts[j]) {
      FaithfulAt(links, parts, j);
    }
  }

  // ---------------------------------------------------------------- defects

  /** What a range read of links that are true up to link `k` fails with at link `k`, provided
      that it gets there. */
  lemma DefectIsMet(c: Crypto, blobs: Blobs, links: seq<Link>, parts: seq<Part>, k: nat, start: int, end: Option<int>)
    requires Unfolds(c, blobs, links, parts) && |parts| == |links| && k < |parts|
    requires TrueBefore(links, parts, k) && Reached(SizeTo(links, k), start, end)
    requires LinkRange(links[k], parts[k], SizeTo(links, k), start, end, None).Err?
    ensures NodeRange(links, parts, start, end) == LinkRange(links[k], parts[k], SizeTo(links, k), start, end, None)
  {
    TrueRun(c, blobs, links, parts, k, start, end);
    var count := |Range(OutcomeTo(parts, k).value, start, end)|;
    NotFilled(OutcomeTo(parts, k).value, count, SizeTo(links, k), start, end);
    LimitIsNoError(links[k], parts[k], SizeTo(links, k), start, end, Shift(end, start + count));
    RestFails(links, parts, k, SizeTo(links, k), count, start, end);
  }

  lemma RestFails(links: seq<Link>, parts: seq<Part>, i: nat, position: nat, count: nat, start: int, end: Option<int>)
    requires |parts| == |links| && i < |parts| && !Filled(count, start, end)
    requires LinkRange(links[i], parts[i], position, start, end, Shift(end, start + count)).Err?
    ensures RestRange(links, parts, i, position, count, start, end)
         == LinkRange(links[i], parts[i], position, start, end, Shift(end, start + count))
  {
  }

  /** The range goes on past a position, so that what lies there is wanted. */
  predicate Reached(position: nat, start: int, end: Option<int>) {
    end.Some? ==> start < end.value && position < end.value
  }

  lemma NotFilled(before: Bytes, count: nat, position: nat, start: int, end: Option<int>)
    requires count == |Range(before, start, end)| && |before| <= position && Reached(position, start, end)
    ensures !Filled(count, start, end)
  {
  }

  lemma LimitIsNoError(link: Link, part: Part, position: nat, start: int, end: Option<int>, limit: Option<int>)
    requires limit.Some? ==> limit.value > 0
    requires LinkRange(link, part, position, start, end, None).Err?
    ensures LinkRange(link, part, position, start, end, limit) == LinkRange(link, part, position, start, end, None)
  {
  }

  /** A range read fails with the first defect that it meets: true sizes before link `k`, which
      leads nowhere and is not passed over, and a range that goes on past its position. A
      missing key is noticed even where the link would be passed over. */
  lemma MetDefect(c: Crypto, blobs: Blobs, links: seq<Link>, parts: seq<Part>, k: nat, start: int, end: Option<int>)
    requires Unfolds(c, blobs, links, parts) && k < |parts| && parts[k].Defect?
    requires TrueBefore(links, parts, k)
    requires Reached(SizeTo(links, k), start, end)
    requires parts[k].error == MissingKey || links[k].size == 0 || SizeTo(links, k) + links[k].size > start
    ensures NodeRange(links, parts, start, end) == Err(parts[k].error)
  {
    UnfoldsAt(c, blobs, links, parts, k);
    DefectIsMet(c, blobs, links, parts, k, start, end);
  }

  /** The same for a defect further down: what the node at link `k` fails with, the whole
      read fails with. */
  lemma MetBelow(c: Crypto, blobs: Blobs, links: seq<Link>, parts: seq<Part>, k: nat, start: int, end: Option<int>)
    requires Unfolds(c, blobs, links, parts) && k < |parts| && parts[k].Inner?
    requires TrueBefore(links, parts, k)
    requires Reached(SizeTo(links, k), start, end) && !Passed(links[k], SizeTo(links, k), start)
    ensures var position := SizeTo(links, k);
      var below := NodeRange(parts[k].node.links, parts[k].parts, if start > position then start - position else 0, Shift(end, position));
      below.Err? ==> NodeRange(links, parts, start, end) == below
  {
    UnfoldsAt(c, blobs, links, parts, k);
    var position := SizeTo(links, k);
    if LinkRange(links[k], parts[k], position, start, end, None).Err? {
      DefectIsMet(c, blobs, links, parts, k, start, end);
    }
  }

  lemma UnfoldsAt(c: Crypto, blobs: Blobs, links: seq<Link>, parts: seq<Part>, i: nat)
    requires Unfolds(c, blobs, links, parts) && i < |parts|
    ensures |parts| == |links| && UnfoldsLink(c, blobs, links[i], parts[i])
  {
  }

  // --------------------------------------------------------------- the loops

  lemma RangeIsSlice(data: Bytes, start: int, end: Option<int>, from: nat, to: int)
    requires start < |data| && from == if start > 0 then start else 0
    requires to == if end.Some? && end.value < |data| then end.value else |data|
    ensures Range(data, start, end) == if from < to then data[from..to] else []
  {
  }

  lemma CutSlice(data: Bytes, from: nat, to: nat, limit: Option<int>)
    requires from <= to <= |data| && (limit.Some? ==> limit.value > 0)
    ensures Cut(data[from..to], limit) == data[from..if limit.Some? && limit.value < to - from then from + limit.value else to]
  {
  }

  /** What a blob at a position adds to a range. */
  method SliceBlob(data: Bytes, position: nat, start: int, end: Option<int>, limit: Option<int>) returns (piece: Bytes)
    requires limit.Some? ==> limit.value > 0
    ensures piece == Cut(Range(data, start - position, Shift(end, position)), limit)
  {
    piece := [];
    if position + |data| > start {
      var sliceStart := if start > position then start - position else 0;
      var sliceEnd := if end.Some? && end.value - position < |data| then end.value - position else |data|;
      RangeIsSlice(data, start - position, Shift(end, position), sliceStart, sliceEnd);
      if sliceStart < sliceEnd {
        CutSlice(data, sliceStart, sliceEnd, limit);
        var take := if limit.Some? && limit.value < sliceEnd - sliceStart then limit.value else sliceEnd - sliceStart;
        piece := data[sliceStart..sliceStart + take];
      }
    } else {
      RangeBehind(data, start - position, Shift(end, position));
    }
  }

  /** Read what one link adds to a range. */
  method ReadLink(c: Crypto, store: Store, link: Link, position: nat, start: int, end: Option<int>, limit: Option<int>, ghost part: Part)
    returns (r: Result<Bytes, ReadError>, next: nat)
    requires UnfoldsLink(c, store.blobs, link, part)
    requires limit.Some? ==> limit.value > 0
    ensures r == LinkRange(link, part, position, start, end, limit)
    ensures r.Ok? ==> next == NextPosition(link, part, position, start)
    decreases part, 0
  {
    next := position + link.size;
    if link.key.None? {
      return Err(MissingKey), next;
    }
    if link.size > 0 && position + link.size <= start {
      return Ok([]), next;
    }
    r := Fetch(c, store, link, part);
    if r.Err? {
      return;
    }
    var data := r.value;
    if link.kind != Blob {
      var child := c.decode(data);
      if child.None? {
        return Err(DecodeFailed), next;
      }
      var childStart := if start > position then start - position else 0;
      r := ReadRange(c, store, child.value, childStart, Shift(end, position), part.parts);
      if r.Ok? && limit.Some? && |r.value| > limit.value {
        r := Ok(r.value[..limit.value]);
      }
    } else {
      next := position + |data|;
      var piece := SliceBlob(data, position, start, end, limit);
      r := Ok(piece);
    }
  }

  /** What has been gathered before link `i`, and what is still to come. */
  ghost predicate Gathering(links: seq<Link>, parts: seq<Part>, i: nat, position: nat, pieces: seq<Bytes>, count: nat,
                            start: int, end: Option<int>)
  {
    && |parts| == |links| && i <= |parts| && count == |Concat(pieces)|
    && var rest := RestRange(links, parts, i, position, count, start, end);
       NodeRange(links, parts, start, end) == if rest.Err? then rest else Ok(Concat(pieces) + rest.value)
  }

  lemma GatherStarts(links: seq<Link>, parts: seq<Part>, i: nat, pieces: seq<Bytes>, start: int, end: Option<int>)
    requires |parts| == |links| && i == 0 && pieces == []
    ensures Gathering(links, parts, i, i, pieces, i, start, end)
  {
    var rest := RestRange(links, parts, i, i, i, start, end);
    if rest.Ok? {
      assert [] + rest.value == rest.value;
    }
  }

  lemma GatherNext(links: seq<Link>, parts: seq<Part>, i: nat, position: nat, pieces: seq<Bytes>, count: nat,
                   start: int, end: Option<int>)
    requires Gathering(links, parts, i, position, pieces, count, start, end) && i < |links| && !Filled(count, start, end)
    ensures var piece := LinkRange(links[i], parts[i], position, start, end, Shift(end, start + count));
      if piece.Err? then NodeRange(links, parts, start, end) == piece
      else Gathering(links, parts, i + 1, NextPosition(links[i], parts[i], position, start), WithRest(pieces, piece.value),
                     count + |piece.value|, start, end)
  {
    var piece := LinkRange(links[i], parts[i], position, start, end, Shift(end, start + count));
    if piece.Ok? {
      ConcatRest(pieces, piece.value);
      var rest := RestRange(links, parts, i + 1, NextPosition(links[i], parts[i], position, start), count + |piece.value|, start, end);
      if rest.Ok? {
        Reassociate(Concat(pieces), piece.value, rest.value);
      }
    }
  }

  lemma ConcatRest(pieces: seq<Bytes>, piece: Bytes)
    ensures Concat(WithRest(pieces, piece)) == Concat(pieces) + piece
  {
    if piece == [] {
      NothingMore(Concat(pieces));
    } else {
      ConcatAppend(pieces, [piece]);
      ConcatOne(piece);
    }
  }

  lemma GatherEnds(links: seq<Link>, parts: seq<Part>, i: nat, position: nat, pieces: seq<Bytes>, count: nat,
                   start: int, end: Option<int>)
    requires Gathering(links, parts, i, position, pieces, count, start, end) && (i == |links| || Filled(count, start, end))
    ensures count == |Concat(pieces)| && NodeRange(links, parts, start, end) == Ok(Concat(pieces))
  {
    NothingMore(Concat(pieces));
  }

  lemma SameLength(c: Crypto, blobs: Blobs, links: seq<Link>, parts: seq<Part>)
    requires Unfolds(c, blobs, links, parts)
    ensures |parts| == |links|
  {
  }

  /** What the read promises of the bytes: never more than asked for; exactly the range of the
      content with true sizes; the whole content or its first defect when all is asked for;
      and no failure where everything can be read. */
  lemma RangePromises(c: Crypto, blobs: Blobs, links: seq<Link>, parts: seq<Part>, start: int, end: Option<int>)
    requires Unfolds(c, blobs, links, parts)
    ensures var r := NodeRange(links, parts, start, end);
      && (r.Ok? && end.Some? ==> |r.value| <= Asked(start, end.value))
      && (Faithful(links, parts) ==> OutcomeTo(parts, |parts|).Ok? && r == Ok(Range(OutcomeTo(parts, |parts|).value, start, end)))
      && (start <= 0 && end.None? ==> r == OutcomeTo(parts, |parts|))
      && (OutcomeTo(parts, |parts|).Ok? ==> r.Ok?)
  {
    if end.Some? { RestIsBounded(links, parts, 0, 0, 0, start, end); }
    if Faithful(links, parts) { FaithfulRange(c, blobs, links, parts, start, end); }
    if start <= 0 && end.None? { WholeRange(c, blobs, links, parts, start); }
    if OutcomeTo(parts, |parts|).Ok? { ReadableRest(c, blobs, links, parts, 0, 0, 0, start, end); }
  }

  /** Read a range of what lies below a node. */
  method ReadRange(c: Crypto, store: Store, node: Node, start: int, end: Option<int>, ghost parts: seq<Part>)
    returns (r: Result<Bytes, ReadError>)
    requires Unfolds(c, store.blobs, node.links, parts)
    ensures r == NodeRange(node.links, parts, start, end)
    ensures r.Ok? && end.Some? ==> |r.value| <= Asked(start, end.value)
    ensures Faithful(node.links, parts) ==>
      OutcomeTo(parts, |parts|).Ok? && r == Ok(Range(OutcomeTo(parts, |parts|).value, start, end))
    ensures start <= 0 && end.None? ==> r == OutcomeTo(parts, |parts|)
    ensures OutcomeTo(parts, |parts|).Ok? ==> r.Ok?
    decreases parts, 1
  {
    RangePromises(c, store.blobs, node.links, parts, start, end);
    var links := node.links;
    var pieces: seq<Bytes> := [];
    var position: nat, bytesCollected: nat, i: nat := 0, 0, 0;
    SameLength(c, store.blobs, links, parts);
    GatherStarts(links, parts, i, pieces, start, end);
    while i < |links| && !(end.Some? && bytesCollected >= end.value - start)
      invariant Gathering(links, parts, i, position, pieces, bytesCollected, start, end)
    {
      UnfoldsAt(c, store.blobs, links, parts, i);
      GatherNext(links, parts, i, position, pieces, bytesCollected, start, end);
      var piece, next := ReadLink(c, store, links[i], position, start, end, Shift(end, start + bytesCollected), parts[i]);
      if piece.Err? {
        return piece;
      }
      pieces := WithRest(pieces, piece.value);
      bytesCollected := bytesCollected + |piece.value|;
      position := next;
      i := i + 1;
    }
    GatherEnds(links, parts, i, position, pieces, bytesCollected, start, end);
    var result := Merge(pieces, bytesCollected);
    r := Ok(result);
  }

  // ---------------------------------------------- reading what was written

  function Leaves(chunks: seq<Bytes>): (parts: seq<Part>)
    ensures |parts| == |chunks|
    ensures forall i :: 0 <= i < |chunks| ==> parts[i] == Leaf(chunks[i])
  {
    seq(|chunks|, i requires 0 <= i < |chunks| => Leaf(chunks[i]))
  }

  /** The root of a stored blob: present, and decrypted to the content. */
  ghost predicate Reads(c: Crypto, blobs: Blobs, cid: Cid, data: Bytes) {
    cid.key.Some? && cid.hash in blobs && c.decrypt(blobs[cid.hash], cid.key.value) == Some(data)
  }

  /** A stored blob is decrypted under its content key, or two byte strings have its hash. */
  lemma BlobReads(c: Crypto, blobs: Blobs, data: Bytes)
    requires Lawful(c) && Honest(c, blobs) && Has(c, false, blobs, data)
    ensures Reads(c, blobs, CidOf(c, false, data), data) || Collides(c, blobs, StoredForm(c, false, data))
  {
    HasFinds(c, false, blobs, data);
  }

  lemma OwnBlobReads(c: Crypto, blobs: Blobs, chunks: seq<Bytes>, x: Bytes)
    requires Lawful(c) && Honest(c, blobs) && Has(c, false, blobs, x) && x in FileBlobs(c, false, chunks)
    ensures Reads(c, blobs, CidOf(c, false, x), x) || FileCollides(c, false, blobs, chunks)
  {
    BlobReads(c, blobs, x);
  }

  lemma {:induction false} LeavesContent(chunks: seq<Bytes>, k: nat)
    requires k <= |chunks|
    ensures OutcomeTo(Leaves(chunks), k) == Ok(Concat(chunks[..k]))
  {
    if k > 0 {
      LeavesContent(chunks, k - 1);
      ConcatSplit(chunks, k - 1);
    } else {
      assert chunks[..0] == [];
    }
  }

  /** The links lead to exactly these chunks, with true sizes. */
  ghost predicate LeadsTo(c: Crypto, blobs: Blobs, links: seq<Link>, chunks: seq<Bytes>) {
    && Unfolds(c, blobs, links, Leaves(chunks)) && Faithful(links, Leaves(chunks))
    && OutcomeTo(Leaves(chunks), |chunks|) == Ok(Concat(chunks))
  }

  lemma WrittenLinks(c: Crypto, blobs: Blobs, chunks: seq<Bytes>)
    requires Lawful(c) && Honest(c, blobs) && HasAll(c, false, blobs, chunks)
    ensures LeadsTo(c, blobs, Links(c, false, chunks), chunks) || FileCollides(c, false, blobs, chunks)
  {
    if !FileCollides(c, false, blobs, chunks) {
      var links, parts := Links(c, false, chunks), Leaves(chunks);
      forall i | 0 <= i < |parts| ensures UnfoldsLink(c, blobs, links[i], parts[i]) && FaithfulLink(links[i], parts[i]) {
        assert Has(c, false, blobs, chunks[i]);
        assert chunks[i] in FileBlobs(c, false, chunks);
        OwnBlobReads(c, blobs, chunks, chunks[i]);
      }
      LeavesContent(chunks, |chunks|);
      assert chunks[..|chunks|] == chunks;
    }
  }

  /** A file as a writer leaves it in the store: the root decrypts to the content when that
      is one chunk, and otherwise to a node below which lies exactly the content. */
  ghost predicate FileReads(c: Crypto, blobs: Blobs, chunker: Chunker, data: Bytes)
    requires Positive(chunker)
  {
    var root, chunks := FileCid(c, false, chunker, data), Pieces(chunker, data, 0);
    if |chunks| <= 1 then root == CidOf(c, false, data) && Reads(c, blobs, root, data)
    else
      var node := NodeOf(c, false, chunks);
      Reads(c, blobs, root, c.encode(node)) && LeadsTo(c, blobs, node.links, chunks) && Concat(chunks) == data
  }

  /** The file reads back, or a held byte string shares a hash with one of its blobs. */
  lemma WrittenFile(c: Crypto, blobs: Blobs, chunker: Chunker, data: Bytes)
    requires Positive(chunker) && Lawful(c) && Honest(c, blobs)
    requires HasFile(c, false, blobs, Pieces(chunker, data, 0))
    ensures FileReads(c, blobs, chunker, data) || FileCollides(c, false, blobs, Pieces(chunker, data, 0))
  {
    var chunks := Pieces(chunker, data, 0);
    PiecesCover(chunker, data, 0);
    if |chunks| == 0 {
      OwnBlobReads(c, blobs, chunks, []);
    } else if |chunks| == 1 {
      assert chunks == [chunks[0]];
      ConcatOne(chunks[0]);
      assert Has(c, false, blobs, chunks[0]);
      assert chunks[0] in FileBlobs(c, false, chunks);
      OwnBlobReads(c, blobs, chunks, data);
    } else {
      OwnBlobReads(c, blobs, chunks, c.encode(NodeOf(c, false, chunks)));
      WrittenLinks(c, blobs, chunks);
    }
  }
}
