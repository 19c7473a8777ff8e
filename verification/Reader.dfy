/**
 Reading encrypted files: whole with a size limit, as a stream from an offset with a
 prefetch queue, and by range.
 */
module Reader {
  import opened Bytes
  import opened Files
  import opened Wrappers

  datatype ReadError = MissingKey | MissingChunk | DecryptFailed | DecodeFailed | TooLarge | QueueEmpty

  // ------------------------------------------------ what a node stands for

  /** What reading a link leads to: a defect, the data of a blob, or a node with its own parts. */
  datatype Part = Defect(error: ReadError) | Leaf(data: Bytes) | Inner(node: Node, parts: seq<Part>)

  /** `parts` is what the links lead to in the store, down to the blobs. */
  ghost predicate Unfolds(c: Crypto, blobs: Blobs, links: seq<Link>, parts: seq<Part>)
    decreases parts
  {
    |links| == |parts| && forall i :: 0 <= i < |parts| ==> UnfoldsLink(c, blobs, links[i], parts[i])
  }

  ghost predicate UnfoldsLink(c: Crypto, blobs: Blobs, link: Link, part: Part)
    decreases part
  {
    if link.key.None? then part == Defect(MissingKey)
    else if link.hash !in blobs then part == Defect(MissingChunk)
    else
      var decrypted := c.decrypt(blobs[link.hash], link.key.value);
      if decrypted.None? then part == Defect(DecryptFailed)
      else if link.kind == Blob then part == Leaf(decrypted.value)
      else
        var node := c.decode(decrypted.value);
        if node.None? then part == Defect(DecodeFailed)
        else part.Inner? && part.node == node.value && Unfolds(c, blobs, part.node.links, part.parts)
  }

  /** The content of a part, or the first defect in it. */
  function Outcome(part: Part): Result<Bytes, ReadError>
    decreases part
  {
    match part
    case Defect(error) => Err(error)
    case Leaf(data) => Ok(data)
    case Inner(_, parts) => OutcomeTo(parts, |parts|)
  }

  /** The content of the first `k` parts, or the first defect in them. */
  function OutcomeTo(parts: seq<Part>, k: nat): Result<Bytes, ReadError>
    requires k <= |parts|
    decreases parts, k
  {
    if k == 0 then Ok([])
    else
      var before := OutcomeTo(parts, k - 1);
      if before.Err? then before
      else
        var last := Outcome(parts[k - 1]);
        if last.Err? then last else Ok(before.value + last.value)
  }

  /** No part is defective and every link declares the length of its content. */
  ghost predicate Faithful(links: seq<Link>, parts: seq<Part>)
    decreases parts
  {
    |links| == |parts| && forall i :: 0 <= i < |parts| ==> FaithfulLink(links[i], parts[i])
  }

  ghost predicate FaithfulLink(link: Link, part: Part)
    decreases part
  {
    && Outcome(part).Ok? && link.size == |Outcome(part).value|
    && (part.Inner? ==> Faithful(part.node.links, part.parts))
  }

  /** The sum of the first `k` declared sizes. */
  function SizeTo(links: seq<Link>, k: nat): (size: nat)
    requires k <= |links|
  {
    if k == 0 then 0 else SizeTo(links, k - 1) + links[k - 1].size
  }

  /** Faithful links have whole content and their sizes add up to its length. */
  lemma {:induction false} FaithfulContent(links: seq<Link>, parts: seq<Part>, k: nat)
    requires Faithful(links, parts) && k <= |parts|
    ensures OutcomeTo(parts, k).Ok? && |OutcomeTo(parts, k).value| == SizeTo(links, k)
  {
    if k > 0 {
      FaithfulContent(links, parts, k - 1);
      assert FaithfulLink(links[k - 1], parts[k - 1]);
    }
  }

  lemma {:induction false} DefectStays(parts: seq<Part>, k: nat, m: nat)
    requires k <= m <= |parts| && OutcomeTo(parts, k).Err?
    ensures OutcomeTo(parts, m) == OutcomeTo(parts, k)
    decreases m
  {
    if k < m {
      DefectStays(parts, k, m - 1);
    }
  }

  lemma FirstDefect(parts: seq<Part>, i: nat)
    requires i < |parts| && OutcomeTo(parts, i).Ok?
    ensures Outcome(parts[i]).Err? ==> OutcomeTo(parts, |parts|) == Outcome(parts[i])
  {
    if Outcome(parts[i]).Err? {
      DefectStays(parts, i + 1, |parts|);
    }
  }

  /** Where everything below a node can be read, every part can. */
  lemma WholeParts(parts: seq<Part>, i: nat)
    requires i < |parts| && OutcomeTo(parts, |parts|).Ok?
    ensures OutcomeTo(parts, i).Ok? && Outcome(parts[i]).Ok?
  {
    if OutcomeTo(parts, i + 1).Err? {
      DefectStays(parts, i + 1, |parts|);
    }
  }

  lemma {:induction false} SizeGrows(links: seq<Link>, k: nat, m: nat)
    requires k <= m <= |links|
    ensures SizeTo(links, k) <= SizeTo(links, m)
    decreases m
  {
    if k < m {
      SizeGrows(links, k, m - 1);
    }
  }

  // ----------------------------------------------------------- whole reads

  class ReadState {
    const maxBytes: Option<nat>
    var bytesRead: nat

    constructor (maxBytes: Option<nat>)
      ensures this.maxBytes == maxBytes && bytesRead == 0
    {
      this.maxBytes := maxBytes;
      bytesRead := 0;
    }

    predicate Fits(bytes: nat) {
      maxBytes.None? || bytes <= maxBytes.value
    }
  }

  /** Decrypt the blob of a link. */
  method Fetch(c: Crypto, store: Store, link: Link, ghost part: Part) returns (r: Result<Bytes, ReadError>)
    requires UnfoldsLink(c, store.blobs, link, part)
    ensures part.Defect? && part.error != DecodeFailed ==> r == Err(part.error)
    ensures part.Leaf? ==> r == Ok(part.data) && link.kind == Blob
    ensures part.Inner? ==> r.Ok? && c.decode(r.value) == Some(part.node) && link.kind != Blob
    ensures part.Defect? && part.error == DecodeFailed ==> r.Ok? && c.decode(r.value).None? && link.kind != Blob
  {
    if link.key.None? {
      return Err(MissingKey);
    }
    if link.hash !in store.blobs {
      return Err(MissingChunk);
    }
    var decrypted := c.decrypt(store.blobs[link.hash], link.key.value);
    if decrypted.None? {
      return Err(DecryptFailed);
    }
    r := Ok(decrypted.value);
  }

  /** The content of one link, refusing to go over the limit. */
  method AssembleLink(c: Crypto, store: Store, link: Link, state: ReadState, ghost part: Part)
    returns (r: Result<Bytes, ReadError>)
    requires UnfoldsLink(c, store.blobs, link, part) && state.Fits(state.bytesRead)
    modifies state
    ensures state.Fits(state.bytesRead)
    ensures r.Ok? ==> r == Outcome(part) && state.bytesRead == old(state.bytesRead) + |r.value|
    ensures state.maxBytes.None? ==> r == Outcome(part)
    ensures FaithfulLink(link, part) ==> (r.Ok? <==> state.Fits(old(state.bytesRead) + link.size))
    ensures r.Err? && FaithfulLink(link, part) ==> r.error == TooLarge
    decreases part, 0
  {
    if !state.Fits(state.bytesRead + link.size) {
      return Err(TooLarge);
    }
    r := Fetch(c, store, link, part);
    if r.Err? {
      return;
    }
    if link.kind != Blob {
      var child := c.decode(r.value);
      if child.None? {
        return Err(DecodeFailed);
      }
      if Faithful(child.value.links, part.parts) {
        FaithfulContent(child.value.links, part.parts, |part.parts|);
      }
      r := Assemble(c, store, child.value, state, part.parts);
    } else {
      if !state.Fits(state.bytesRead + |r.value|) {
        return Err(TooLarge);
      }
      state.bytesRead := state.bytesRead + |r.value|;
    }
  }

  /** The content below a node, refusing to go over the limit. */
  method Assemble(c: Crypto, store: Store, node: Node, state: ReadState, ghost parts: seq<Part>)
    returns (r: Result<Bytes, ReadError>)
    requires Unfolds(c, store.blobs, node.links, parts) && state.Fits(state.bytesRead)
    modifies state
    ensures state.Fits(state.bytesRead)
    ensures r.Ok? ==> r == OutcomeTo(parts, |parts|) && state.bytesRead == old(state.bytesRead) + |r.value|
    ensures state.maxBytes.None? ==> r == OutcomeTo(parts, |parts|)
    ensures Faithful(node.links, parts) ==>
      (r.Ok? <==> state.Fits(old(state.bytesRead) + SizeTo(node.links, |node.links|)))
    ensures r.Err? && Faithful(node.links, parts) ==> r.error == TooLarge
    decreases parts
  {
    if Faithful(node.links, parts) {
      FaithfulContent(node.links, parts, |parts|);
    }
    var collected: seq<Bytes> := [];
    var total := 0;
    for i := 0 to |node.links|
      invariant OutcomeTo(parts, i) == Ok(Concat(collected)) && total == |Concat(collected)|
      invariant state.bytesRead == old(state.bytesRead) + total && state.Fits(state.bytesRead)
    {
      FirstDefect(parts, i);
      if Faithful(node.links, parts) {
        FaithfulSizes(node.links, parts, i);
      }
      var piece := AssembleLink(c, store, node.links[i], state, parts[i]);
      if piece.Err? {
        return piece;
      }
      ConcatAppend(collected, [piece.value]);
      ConcatOne(piece.value);
      collected := collected + [piece.value];
      total := total + |piece.value|;
    }
    var result := Merge(collected, total);
    r := Ok(result);
  }

  lemma FaithfulSizes(links: seq<Link>, parts: seq<Part>, i: nat)
    requires Faithful(links, parts) && i < |parts| && OutcomeTo(parts, i).Ok?
    ensures FaithfulLink(links[i], parts[i])
    ensures |OutcomeTo(parts, i).value| + links[i].size <= SizeTo(links, |links|)
    ensures OutcomeTo(parts, i + 1) == Ok(OutcomeTo(parts, i).value + Outcome(parts[i]).value)
    ensures SizeTo(links, i) == |OutcomeTo(parts, i).value|
  {
    FaithfulContent(links, parts, i);
    FaithfulContent(links, parts, i + 1);
    SizeGrows(links, i + 1, |links|);
  }

  /** Read a whole file from its root node: the declared sizes are checked first. */
  method ReadNode(c: Crypto, store: Store, node: Node, maxBytes: Option<nat>, ghost parts: seq<Part>)
    returns (r: Result<Bytes, ReadError>)
    requires Unfolds(c, store.blobs, node.links, parts)
    ensures r.Ok? ==> r == OutcomeTo(parts, |parts|) && (maxBytes.Some? ==> |r.value| <= maxBytes.value)
    ensures maxBytes.None? ==> r == OutcomeTo(parts, |parts|)
    ensures Faithful(node.links, parts) ==> OutcomeTo(parts, |parts|).Ok?
    ensures Faithful(node.links, parts) ==>
      (r.Ok? <==> maxBytes.None? || |OutcomeTo(parts, |parts|).value| <= maxBytes.value)
    ensures r.Err? && Faithful(node.links, parts) ==> r.error == TooLarge
  {
    if Faithful(node.links, parts) {
      FaithfulContent(node.links, parts, |parts|);
    }
    var declaredSize := 0;
    for i := 0 to |node.links|
      invariant declaredSize == SizeTo(node.links, i)
    {
      declaredSize := declaredSize + node.links[i].size;
    }
    if maxBytes.Some? && declaredSize > maxBytes.value {
      return Err(TooLarge);
    }
    var state := new ReadState(maxBytes);
    r := Assemble(c, store, node, state, parts);
  }

  // ---------------------------------------------------------------- streams

  function Drop(data: Bytes, offset: nat): Bytes {
    if offset < |data| then data[offset..] else []
  }

  lemma DropAppend(before: Bytes, piece: Bytes, offset: nat)
    ensures Drop(before + piece, offset)
         == Drop(before, offset) + Drop(piece, if offset > |before| then offset - |before| else 0)
  {
  }

  /** A link whose blob has been asked for, with the blob that came back. */
  datatype Entry = Entry(blob: Option<Bytes>, link: Link, position: nat)

  function EntryFor(blobs: Blobs, links: seq<Link>, k: nat): Entry
    requires k < |links|
  {
    Entry(if links[k].hash in blobs then Some(blobs[links[k].hash]) else None, links[k], SizeTo(links, k))
  }

  function Min(a: nat, b: nat): nat {
    if a < b then a else b
  }

  /** The queue holds the next links in order, as many as fit or are left. */
  ghost predicate Prefetched(blobs: Blobs, links: seq<Link>, from: nat, prefetch: nat, queue: seq<Entry>)
    requires from <= |links|
  {
    && |queue| == Min(prefetch, |links| - from)
    && forall j :: 0 <= j < |queue| ==> queue[j] == EntryFor(blobs, links, from + j)
  }

  /** What a stream hands on, and how it ends. */
  datatype Stream = Stream(bytes: Bytes, error: Option<ReadError>)

  function Joined(first: Stream, rest: Stream): Stream {
    if first.error.Some? then first else Stream(first.bytes + rest.bytes, rest.error)
  }

  function After(offset: nat, position: nat): nat {
    if offset > position then offset - position else 0
  }

  /** The first link that is needed: links that end at or before the offset by their declared
      sizes are passed over. */
  function Needed(links: seq<Link>, i: nat, offset: nat): (r: nat)
    requires i <= |links|
    ensures i <= r <= |links|
    decreases |links| - i
  {
    if i < |links| && links[i].size > 0 && SizeTo(links, i + 1) <= offset then Needed(links, i + 1, offset) else i
  }

  /** The stream of one part from an offset on: no queue, one part after the other. */
  function PartStream(part: Part, offset: nat): Stream
    decreases part
  {
    match part
    case Defect(error) => Stream([], Some(error))
    case Leaf(data) => Stream(Drop(data, offset), None)
    case Inner(node, parts) =>
      if |parts| == |node.links| then PartsStream(node.links, parts, Needed(node.links, 0, offset), offset)
      else Stream([], None)
  }

  /** The stream of the parts from part `i` on, each at its declared position. */
  function PartsStream(links: seq<Link>, parts: seq<Part>, i: nat, offset: nat): Stream
    requires |parts| == |links| && i <= |links|
    decreases parts, |parts| - i
  {
    if i == |parts| then Stream([], None)
    else Joined(PartStream(parts[i], After(offset, SizeTo(links, i))), PartsStream(links, parts, i + 1, offset))
  }

  /** The stream of all that lies below a node. */
  function NodeStream(links: seq<Link>, parts: seq<Part>, offset: nat): Stream
    requires |parts| == |links|
  {
    PartsStream(links, parts, Needed(links, 0, offset), offset)
  }

  lemma {:induction false} NeededEnds(links: seq<Link>, i: nat, offset: nat)
    requires i <= |links| && (i > 0 ==> SizeTo(links, i) <= offset)
    ensures var r := Needed(links, i, offset); r > 0 ==> SizeTo(links, r) <= offset
    decreases |links| - i
  {
    if i < |links| && links[i].size > 0 && SizeTo(links, i + 1) <= offset {
      NeededEnds(links, i + 1, offset);
    }
  }

  /** Where everything can be read the stream does not fail. */
  lemma {:induction false} WholeStream(links: seq<Link>, parts: seq<Part>, i: nat, offset: nat)
    requires |parts| == |links| && i <= |links| && OutcomeTo(parts, |parts|).Ok?
    ensures PartsStream(links, parts, i, offset).error.None?
    decreases parts, |parts| - i
  {
    if i < |parts| {
      WholeParts(parts, i);
      WholePart(parts[i], After(offset, SizeTo(links, i)));
      WholeStream(links, parts, i + 1, offset);
    }
  }

  lemma {:induction false} WholePart(part: Part, offset: nat)
    requires Outcome(part).Ok?
    ensures PartStream(part, offset).error.None?
    decreases part
  {
    if part.Inner? && |part.parts| == |part.node.links| {
      WholeStream(part.node.links, part.parts, Needed(part.node.links, 0, offset), offset);
    }
  }

  /** With true sizes the rest of the stream completes the content from the offset on. */
  lemma {:induction false} FaithfulRest(links: seq<Link>, parts: seq<Part>, i: nat, offset: nat)
    requires Faithful(links, parts) && i <= |parts| && OutcomeTo(parts, |parts|).Ok?
    requires OutcomeTo(parts, i).Ok? && |OutcomeTo(parts, i).value| == SizeTo(links, i)
    ensures Drop(OutcomeTo(parts, i).value, offset) + PartsStream(links, parts, i, offset).bytes
         == Drop(OutcomeTo(parts, |parts|).value, offset)
    decreases parts, |parts| - i
  {
    if i < |parts| {
      FaithfulAt(links, parts, i);
      OneFaithful(links, parts, i, offset);
      FaithfulRest(links, parts, i + 1, offset);
    } else {
      NothingMore(Drop(OutcomeTo(parts, i).value, offset));
    }
  }

  lemma FaithfulAt(links: seq<Link>, parts: seq<Part>, i: nat)
    requires Faithful(links, parts) && i < |parts|
    ensures |parts| == |links| && FaithfulLink(links[i], parts[i])
  {
  }

  lemma NothingMore(s: Bytes)
    ensures s + [] == s
  {
  }

  lemma DropJoin(before: Bytes, piece: Bytes, rest: Bytes, offset: nat)
    ensures Drop(before, offset) + (Drop(piece, After(offset, |before|)) + rest) == Drop(before + piece, offset) + rest
  {
    DropAppend(before, piece, offset);
    var first := Drop(piece, After(offset, |before|));
    assert Drop(before, offset) + (first + rest) == Drop(before, offset) + first + rest;
  }

  lemma {:induction false} FaithfulPart(link: Link, part: Part, offset: nat)
    requires FaithfulLink(link, part)
    ensures PartStream(part, offset) == Stream(Drop(Outcome(part).value, offset), None)
    decreases part
  {
    if part.Inner? {
      FaithfulStream(part.node.links, part.parts, offset);
    }
  }

  /** With true sizes the stream is the content from the offset on. */
  lemma {:induction false} FaithfulStream(links: seq<Link>, parts: seq<Part>, offset: nat)
    requires Faithful(links, parts)
    ensures OutcomeTo(parts, |parts|).Ok?
    ensures NodeStream(links, parts, offset) == Stream(Drop(OutcomeTo(parts, |parts|).value, offset), None)
    decreases parts, |parts| + 1
  {
    var i := Needed(links, 0, offset);
    NeededEnds(links, 0, offset);
    FaithfulContent(links, parts, i);
    FaithfulContent(links, parts, |parts|);
    FaithfulRest(links, parts, i, offset);
    WholeStream(links, parts, i, offset);
    var rest := PartsStream(links, parts, i, offset).bytes;
    assert [] + rest == rest;
  }

  /** Up to the first part whose stream fails the content is handed on in full, given true
      sizes so far; then comes what that part hands on, and its error. */
  lemma {:induction false} StreamToDefect(links: seq<Link>, parts: seq<Part>, i: nat, k: nat, offset: nat)
    requires |parts| == |links| && i <= k < |parts|
    requires forall j :: 0 <= j < k ==> FaithfulLink(links[j], parts[j])
    requires PartStream(parts[k], After(offset, SizeTo(links, k))).error.Some?
    ensures OutcomeTo(parts, i).Ok? && OutcomeTo(parts, k).Ok?
    ensures var s, last := PartsStream(links, parts, i, offset), PartStream(parts[k], After(offset, SizeTo(links, k)));
      && s.error == last.error
      && Drop(OutcomeTo(parts, i).value, offset) + s.bytes == Drop(OutcomeTo(parts, k).value, offset) + last.bytes
    decreases k - i
  {
    FaithfulUpTo(links, parts, k, i);
    if i < k {
      StreamToDefect(links, parts, i + 1, k, offset);
      OneFaithful(links, parts, i, offset);
    } else {
      DefectStream(links, parts, k, offset);
    }
  }

  lemma DefectStream(links: seq<Link>, parts: seq<Part>, k: nat, offset: nat)
    requires |parts| == |links| && k < |parts|
    requires PartStream(parts[k], After(offset, SizeTo(links, k))).error.Some?
    ensures PartsStream(links, parts, k, offset) == PartStream(parts[k], After(offset, SizeTo(links, k)))
  {
  }

  lemma {:induction false} OneFaithful(links: seq<Link>, parts: seq<Part>, i: nat, offset: nat)
    requires |parts| == |links| && i < |parts| && FaithfulLink(links[i], parts[i])
    requires OutcomeTo(parts, i).Ok? && |OutcomeTo(parts, i).value| == SizeTo(links, i)
    ensures OutcomeTo(parts, i + 1).Ok? && |OutcomeTo(parts, i + 1).value| == SizeTo(links, i + 1)
    ensures PartsStream(links, parts, i, offset).error == PartsStream(links, parts, i + 1, offset).error
    ensures Drop(OutcomeTo(parts, i).value, offset) + PartsStream(links, parts, i, offset).bytes
         == Drop(OutcomeTo(parts, i + 1).value, offset) + PartsStream(links, parts, i + 1, offset).bytes
    decreases parts, |parts| - i, 0
  {
    var before, piece := OutcomeTo(parts, i).value, Outcome(parts[i]).value;
    FaithfulPart(links[i], parts[i], After(offset, |before|));
    DropJoin(before, piece, PartsStream(links, parts, i + 1, offset).bytes, offset);
  }

  lemma {:induction false} FaithfulUpTo(links: seq<Link>, parts: seq<Part>, k: nat, i: nat)
    requires |parts| == |links| && i <= k <= |parts|
    requires forall j :: 0 <= j < k ==> FaithfulLink(links[j], parts[j])
    ensures OutcomeTo(parts, i).Ok? && |OutcomeTo(parts, i).value| == SizeTo(links, i)
    ensures i > 0 ==> OutcomeTo(parts, i).value == OutcomeTo(parts, i - 1).value + Outcome(parts[i - 1]).value
  {
    if i > 0 {
      FaithfulUpTo(links, parts, k, i - 1);
      assert FaithfulLink(links[i - 1], parts[i - 1]);
    }
  }

  /** The loop that finds the first needed link. */
  method FirstNeeded(links: seq<Link>, offset: nat) returns (startIdx: nat, position: nat)
    ensures startIdx == Needed(links, 0, offset) && position == SizeTo(links, startIdx)
  {
    position := 0;
    startIdx := 0;
    for i := 0 to |links|
      invariant startIdx == i && position == SizeTo(links, i)
      invariant Needed(links, i, offset) == Needed(links, 0, offset)
    {
      var linkSize := links[i].size;
      if linkSize > 0 && position + linkSize <= offset {
        position := position + linkSize;
        startIdx := i + 1;
      } else {
        break;
      }
    }
  }

  /** Ask for the first links. */
  method FillQueue(store: Store, links: seq<Link>, startIdx: nat, prefetch: nat) returns (queue: seq<Entry>, prefetchPosition: nat)
    requires startIdx <= |links|
    ensures Prefetched(store.blobs, links, startIdx, prefetch, queue)
    ensures prefetchPosition == SizeTo(links, startIdx + |queue|)
  {
    queue := [];
    prefetchPosition := SizeTo(links, startIdx);
    for i := 0 to Min(prefetch, |links| - startIdx)
      invariant |queue| == i && prefetchPosition == SizeTo(links, startIdx + i)
      invariant forall j :: 0 <= j < i ==> queue[j] == EntryFor(store.blobs, links, startIdx + j)
    {
      var link := links[startIdx + i];
      var blob := if link.hash in store.blobs then Some(store.blobs[link.hash]) else None;
      queue := queue + [Entry(blob, link, prefetchPosition)];
      prefetchPosition := prefetchPosition + link.size;
    }
  }

  /** The next index to ask for, as long as links are left. */
  ghost predicate InStep(idx: int, ahead: nat, count: nat) {
    if ahead < count then idx == ahead else idx >= count
  }

  /** Take the next entry and, when links are left, ask for one more. */
  method NextEntry(store: Store, links: seq<Link>, i: nat, prefetch: nat, queue: seq<Entry>, nextIdx: nat, nextPosition: nat)
    returns (entry: Entry, rest: seq<Entry>, idx: nat, position: nat)
    requires i < |links| && prefetch > 0 && Prefetched(store.blobs, links, i, prefetch, queue)
    requires InStep(nextIdx, i + prefetch, |links|)
    requires nextPosition == SizeTo(links, i + |queue|)
    ensures entry == EntryFor(store.blobs, links, i)
    ensures Prefetched(store.blobs, links, i + 1, prefetch, rest)
    ensures InStep(idx, i + 1 + prefetch, |links|)
    ensures position == SizeTo(links, i + 1 + |rest|)
  {
    entry := queue[0];
    rest := queue[1..];
    idx, position := nextIdx, nextPosition;
    if idx < |links| {
      var next := links[idx];
      var blob := if next.hash in store.blobs then Some(store.blobs[next.hash]) else None;
      rest := rest + [Entry(blob, next, position)];
      position := position + next.size;
      idx := idx + 1;
    }
  }

  /** One link of a stream: hand on what of its content lies behind the offset. */
  method StreamLink(c: Crypto, store: Store, entry: Entry, offset: nat, prefetch: nat, ghost part: Part)
    returns (out: seq<Bytes>, error: Option<ReadError>)
    requires UnfoldsLink(c, store.blobs, entry.link, part) && entry.link.key.Some? && prefetch > 0
    requires entry.blob == if entry.link.hash in store.blobs then Some(store.blobs[entry.link.hash]) else None
    ensures Stream(Concat(out), error) == PartStream(part, After(offset, entry.position))
    decreases part
  {
    out, error := [], None;
    if entry.blob.None? {
      return [], Some(MissingChunk);
    }
    var decrypted := c.decrypt(entry.blob.value, entry.link.key.value);
    if decrypted.None? {
      return [], Some(DecryptFailed);
    }
    var data := decrypted.value;
    if entry.link.kind != Blob {
      var child := c.decode(data);
      if child.None? {
        return [], Some(DecodeFailed);
      }
      out, error := StreamFrom(c, store, child.value, After(offset, entry.position), prefetch, part.parts);
    } else {
      var chunkStart, chunkEnd := entry.position, entry.position + |data|;
      if chunkEnd <= offset {
        return;
      }
      var piece := if chunkStart >= offset then data else data[offset - chunkStart..];
      ConcatOne(piece);
      out := [piece];
    }
  }

  /** Stream what lies below a node from an offset on; `out` is what is handed on before the
      end or the first error. Whatever the links are, the prefetch queue makes no difference
      to reading one part after the other; without a queue nothing is streamed. */
  method StreamFrom(c: Crypto, store: Store, node: Node, offset: nat, prefetch: nat, ghost parts: seq<Part>)
    returns (out: seq<Bytes>, error: Option<ReadError>)
    requires Unfolds(c, store.blobs, node.links, parts)
    ensures prefetch > 0 ==> Stream(Concat(out), error) == NodeStream(node.links, parts, offset)
    ensures prefetch == 0 ==> out == [] && (error.None? <==> Needed(node.links, 0, offset) == |node.links|)
    decreases parts, 2
  {
    var startIdx, position := FirstNeeded(node.links, offset);
    if startIdx == |node.links| {
      return [], None;
    }
    out, error := StreamLinks(c, store, node.links, startIdx, offset, prefetch, parts);
  }

  /** What has been handed on before part `i`, and what is still to come. */
  ghost predicate Streaming(links: seq<Link>, parts: seq<Part>, startIdx: nat, i: nat, offset: nat, out: seq<Bytes>)
    requires |parts| == |links| && startIdx <= |links| && i <= |links|
  {
    Joined(Stream(Concat(out), None), PartsStream(links, parts, i, offset)) == PartsStream(links, parts, startIdx, offset)
  }

  lemma StreamingNext(links: seq<Link>, parts: seq<Part>, startIdx: nat, i: nat, offset: nat, out: seq<Bytes>,
                      more: seq<Bytes>, failed: Option<ReadError>)
    requires |parts| == |links| && startIdx <= |links| && i < |links| && Streaming(links, parts, startIdx, i, offset, out)
    requires Stream(Concat(more), failed) == PartStream(parts[i], After(offset, SizeTo(links, i)))
    ensures failed.None? ==> Streaming(links, parts, startIdx, i + 1, offset, out + more)
    ensures failed.Some? ==> Stream(Concat(out + more), failed) == PartsStream(links, parts, startIdx, offset)
  {
    ConcatAppend(out, more);
    var rest := PartsStream(links, parts, i + 1, offset).bytes;
    assert Concat(out) + (Concat(more) + rest) == Concat(out) + Concat(more) + rest;
  }

  /** The queue in the middle of a stream. */
  ghost predicate Queued(blobs: Blobs, links: seq<Link>, i: nat, prefetch: nat, queue: seq<Entry>, nextIdx: int, position: nat)
    requires i <= |links|
  {
    && Prefetched(blobs, links, i, prefetch, queue) && InStep(nextIdx, i + prefetch, |links|)
    && position == SizeTo(links, i + |queue|)
  }

  /** The links from the first needed one on, with the prefetch queue ahead of them. */
  method StreamLinks(c: Crypto, store: Store, links: seq<Link>, startIdx: nat, offset: nat, prefetch: nat, ghost parts: seq<Part>)
    returns (out: seq<Bytes>, error: Option<ReadError>)
    requires Unfolds(c, store.blobs, links, parts) && startIdx < |links|
    ensures prefetch > 0 ==> Stream(Concat(out), error) == PartsStream(links, parts, startIdx, offset)
    ensures prefetch == 0 ==> out == [] && error.Some?
    decreases parts, 1
  {
    out, error := [], None;
    var queue, prefetchPosition := FillQueue(store, links, startIdx, prefetch);
    var nextPrefetchIdx := startIdx + prefetch;
    StreamingStarts(links, parts, startIdx, offset);
    for i := startIdx to |links|
      invariant Queued(store.blobs, links, i, prefetch, queue, nextPrefetchIdx, prefetchPosition)
      invariant Streaming(links, parts, startIdx, i, offset, out)
      invariant prefetch == 0 ==> i == startIdx && out == []
    {
      if links[i].key.None? {
        KeylessStops(c, store.blobs, links, parts, startIdx, i, offset, out);
        return out, Some(MissingKey);
      }
      if |queue| == 0 {
        return out, Some(QueueEmpty);
      }
      var entry;
      entry, queue, nextPrefetchIdx, prefetchPosition :=
        NextEntry(store, links, i, prefetch, queue, nextPrefetchIdx, prefetchPosition);
      assert UnfoldsLink(c, store.blobs, links[i], parts[i]);
      var more, failed := StreamLink(c, store, entry, offset, prefetch, parts[i]);
      StreamingNext(links, parts, startIdx, i, offset, out, more, failed);
      out := out + more;
      if failed.Some? {
        return out, failed;
      }
    }
    StreamingEnds(links, parts, startIdx, offset, out);
  }

  lemma StreamingStarts(links: seq<Link>, parts: seq<Part>, startIdx: nat, offset: nat)
    requires |parts| == |links| && startIdx <= |links|
    ensures Streaming(links, parts, startIdx, startIdx, offset, [])
  {
    var all := PartsStream(links, parts, startIdx, offset).bytes;
    assert [] + all == all;
  }

  lemma StreamingEnds(links: seq<Link>, parts: seq<Part>, startIdx: nat, offset: nat, out: seq<Bytes>)
    requires |parts| == |links| && startIdx <= |links| && Streaming(links, parts, startIdx, |links|, offset, out)
    ensures Stream(Concat(out), None) == PartsStream(links, parts, startIdx, offset)
  {
    assert Concat(out) + [] == Concat(out);
  }

  lemma KeylessStops(c: Crypto, blobs: Blobs, links: seq<Link>, parts: seq<Part>, startIdx: nat, i: nat, offset: nat, out: seq<Bytes>)
    requires Unfolds(c, blobs, links, parts) && startIdx <= |links| && i < |links| && links[i].key.None?
    requires Streaming(links, parts, startIdx, i, offset, out)
    ensures Stream(Concat(out), Some(MissingKey)) == PartsStream(links, parts, startIdx, offset)
  {
    assert UnfoldsLink(c, blobs, links[i], parts[i]);
    assert PartsStream(links, parts, i, offset) == Stream([], Some(MissingKey));
    assert Concat(out) + [] == Concat(out);
  }
}
