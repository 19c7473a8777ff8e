/**
 Traversing the blocks of a tree: the depth-first walk that push and verification use,
 and the parallel pull. The link graph is finite and may have shared parts and cycles.
 */
module Walk {
  import opened Wrappers
  import opened Bytes

  datatype Link = Link(hash: Bytes, key: Option<Bytes>)

  /** A stable store: which hashes it holds, and the links found in a held block when it
      is read with a key (none for a block that is not a tree node). */
  datatype Graph = Graph(present: set<Bytes>, links: (Bytes, Option<Bytes>) -> seq<Link>)

  /** The one key each hash is linked with. */
  type KeyOf = Bytes -> Option<Bytes>

  ghost function LinksOf(g: Graph, keyOf: KeyOf, h: Bytes): seq<Link> {
    g.links(h, keyOf(h))
  }

  ghost predicate OneKey(g: Graph, keyOf: KeyOf, root: Link) {
    && root.key == keyOf(root.hash)
    && forall h, i :: h in g.present && 0 <= i < |LinksOf(g, keyOf, h)| ==>
         LinksOf(g, keyOf, h)[i].key == keyOf(LinksOf(g, keyOf, h)[i].hash)
  }

  ghost predicate HasLink(g: Graph, keyOf: KeyOf, h: Bytes, t: Bytes) {
    h in g.present && exists i :: 0 <= i < |LinksOf(g, keyOf, h)| && LinksOf(g, keyOf, h)[i].hash == t
  }

  ghost predicate Path(g: Graph, keyOf: KeyOf, p: seq<Bytes>) {
    p != [] && forall i :: 0 <= i < |p| - 1 ==> HasLink(g, keyOf, p[i], p[i + 1])
  }

  /** `t` can be reached from `h` along links of held blocks. */
  ghost predicate Reachable(g: Graph, keyOf: KeyOf, h: Bytes, t: Bytes) {
    exists p :: Path(g, keyOf, p) && p[0] == h && p[|p| - 1] == t
  }

  /** All hashes that can turn up: the held ones, the root, and whatever they link to. */
  ghost function Universe(g: Graph, keyOf: KeyOf, root: Bytes): set<Bytes> {
    {root} + g.present + set h, i | h in g.present && 0 <= i < |LinksOf(g, keyOf, h)| :: LinksOf(g, keyOf, h)[i].hash
  }

  lemma ReachSelf(g: Graph, keyOf: KeyOf, h: Bytes)
    ensures Reachable(g, keyOf, h, h)
  {
    assert Path(g, keyOf, [h]);
    assert [h][0] == h && [h][|[h]| - 1] == h;
  }

  lemma ReachStep(g: Graph, keyOf: KeyOf, h: Bytes, m: Bytes, t: Bytes)
    requires HasLink(g, keyOf, h, m) && Reachable(g, keyOf, m, t)
    ensures Reachable(g, keyOf, h, t)
  {
    var p :| Path(g, keyOf, p) && p[0] == m && p[|p| - 1] == t;
    var q := [h] + p;
    forall i | 0 <= i < |q| - 1 ensures HasLink(g, keyOf, q[i], q[i + 1]) {
      if i > 0 { assert HasLink(g, keyOf, p[i - 1], p[i]); }
    }
    assert Path(g, keyOf, q) && q[0] == h && q[|q| - 1] == t;
  }

  lemma ReachExtend(g: Graph, keyOf: KeyOf, h: Bytes, m: Bytes, t: Bytes)
    requires Reachable(g, keyOf, h, m) && HasLink(g, keyOf, m, t)
    ensures Reachable(g, keyOf, h, t)
  {
    var p :| Path(g, keyOf, p) && p[0] == h && p[|p| - 1] == m;
    var q := p + [t];
    forall i | 0 <= i < |q| - 1 ensures HasLink(g, keyOf, q[i], q[i + 1]) {
      if i < |p| - 1 { assert HasLink(g, keyOf, p[i], p[i + 1]); }
    }
    assert Path(g, keyOf, q) && q[0] == h && q[|q| - 1] == t;
  }

  /** Every held block of `s` has all its links in `v`. */
  ghost predicate Closed(g: Graph, keyOf: KeyOf, s: set<Bytes>, v: set<Bytes>) {
    forall h, t :: h in s && HasLink(g, keyOf, h, t) ==> t in v
  }

  /** A closed set that holds the root holds everything reachable. */
  lemma ClosedHoldsReachable(g: Graph, keyOf: KeyOf, root: Bytes, v: set<Bytes>, t: Bytes)
    requires root in v && Closed(g, keyOf, v, v) && Reachable(g, keyOf, root, t)
    ensures t in v
  {
    var p :| Path(g, keyOf, p) && p[0] == root && p[|p| - 1] == t;
    PathStays(g, keyOf, v, p, |p| - 1);
  }

  lemma {:induction false} PathStays(g: Graph, keyOf: KeyOf, v: set<Bytes>, p: seq<Bytes>, n: nat)
    requires Path(g, keyOf, p) && n < |p| && p[0] in v && Closed(g, keyOf, v, v)
    ensures p[n] in v
  {
    if n > 0 {
      PathStays(g, keyOf, v, p, n - 1);
      assert HasLink(g, keyOf, p[n - 1], p[n]);
    }
  }

  /** The list names each member of the set once and nothing else. */
  ghost predicate Lists(out: seq<Bytes>, s: set<Bytes>) {
    && (forall i, j :: 0 <= i < j < |out| ==> out[i] != out[j])
    && (forall h :: h in out <==> h in s)
  }

  lemma {:induction false} ListsSize(out: seq<Bytes>, s: set<Bytes>)
    requires Lists(out, s)
    ensures |out| == |s|
  {
    if out == [] {
      assert s == {};
    } else {
      var n := |out| - 1;
      assert out[n] in s;
      assert forall h :: h in out[..n] <==> h in s - {out[n]} by {
        forall h ensures h in out[..n] <==> h in s - {out[n]} {
          assert h in out <==> h in s;
        }
      }
      ListsSize(out[..n], s - {out[n]});
    }
  }

  // -------------------------------------------------------- the depth-first walk

  /** The visited set that the recursive calls share, and the two lists they fill:
      the blocks found, in order of discovery, and the hashes not held. */
  class Traversal {
    const g: Graph
    var visited: set<Bytes>
    var found: seq<Bytes>
    var missing: seq<Bytes>

    ghost predicate Valid()
      reads this
    {
      Lists(found, visited * g.present) && Lists(missing, visited - g.present)
    }

    constructor (g: Graph)
      ensures Valid() && this.g == g && visited == {}
    {
      this.g := g;
      visited, found, missing := {}, [], [];
    }

    /** Record a hash seen for the first time. */
    method Record(hash: Bytes)
      requires Valid() && hash !in visited
      modifies this
      ensures Valid() && visited == old(visited) + {hash}
      ensures found == if hash in g.present then old(found) + [hash] else old(found)
    {
      visited := visited + {hash};
      if hash in g.present {
        found := found + [hash];
        assert visited * g.present == old(visited) * g.present + {hash};
        assert visited - g.present == old(visited) - g.present;
      } else {
        missing := missing + [hash];
        assert visited * g.present == old(visited) * g.present;
        assert visited - g.present == old(visited) - g.present + {hash};
      }
    }

    /** Visit one hash and, before returning, everything below it that is still new. */
    method Traverse(link: Link, ghost keyOf: KeyOf, ghost root: Link)
      requires Valid() && OneKey(g, keyOf, root) && link.key == keyOf(link.hash)
      requires visited <= Universe(g, keyOf, root.hash) && link.hash in Universe(g, keyOf, root.hash)
      modifies this
      ensures Valid() && old(visited) + {link.hash} <= visited <= Universe(g, keyOf, root.hash)
      ensures Closed(g, keyOf, visited - old(visited), visited)
      ensures forall h :: h in visited - old(visited) ==> Reachable(g, keyOf, link.hash, h)
      decreases Universe(g, keyOf, root.hash) - visited, 0
    {
      var hash := link.hash;
      if hash in visited {
        return;
      }
      Record(hash);
      ReachSelf(g, keyOf, hash);
      if hash in g.present {
        ghost var mid := visited;
        TraverseLinks(hash, g.links(hash, link.key), keyOf, root);
        assert visited - old(visited) == (visited - mid) + {hash};
      }
    }

    /** Visit the links of a held block one after the other. */
    method TraverseLinks(hash: Bytes, links: seq<Link>, ghost keyOf: KeyOf, ghost root: Link)
      requires Valid() && OneKey(g, keyOf, root) && hash in g.present && links == LinksOf(g, keyOf, hash)
      requires visited <= Universe(g, keyOf, root.hash)
      modifies this
      ensures Valid() && old(visited) <= visited <= Universe(g, keyOf, root.hash)
      ensures Closed(g, keyOf, visited - old(visited), visited)
      ensures forall t :: HasLink(g, keyOf, hash, t) ==> t in visited
      ensures forall h :: h in visited - old(visited) ==> Reachable(g, keyOf, hash, h)
      decreases Universe(g, keyOf, root.hash) - visited, 1
    {
      for i := 0 to |links|
        invariant Valid() && old(visited) <= visited <= Universe(g, keyOf, root.hash)
        invariant Closed(g, keyOf, visited - old(visited), visited)
        invariant forall j :: 0 <= j < i ==> links[j].hash in visited
        invariant forall h :: h in visited - old(visited) ==> Reachable(g, keyOf, hash, h)
      {
        ghost var mid := visited;
        assert LinksOf(g, keyOf, hash)[i] == links[i];
        assert HasLink(g, keyOf, hash, links[i].hash);
        Traverse(links[i], keyOf, root);
        forall h | h in visited - mid ensures Reachable(g, keyOf, hash, h) {
          ReachStep(g, keyOf, hash, links[i].hash, h);
        }
      }
    }
  }

  /** What a walk from the root must have visited. */
  lemma WalkIsReachability(g: Graph, keyOf: KeyOf, root: Bytes, v: set<Bytes>)
    requires root in v && Closed(g, keyOf, v, v) && forall h :: h in v ==> Reachable(g, keyOf, root, h)
    ensures forall h :: h in v <==> Reachable(g, keyOf, root, h)
  {
    forall h | Reachable(g, keyOf, root, h) ensures h in v {
      ClosedHoldsReachable(g, keyOf, root, v, h);
    }
  }

  /** The walk yields every held block that can be reached, each exactly once. */
  method WalkBlocks(g: Graph, root: Link, ghost keyOf: KeyOf) returns (blocks: seq<Bytes>)
    requires OneKey(g, keyOf, root)
    ensures forall i, j :: 0 <= i < j < |blocks| ==> blocks[i] != blocks[j]
    ensures forall h :: h in blocks <==> h in g.present && Reachable(g, keyOf, root.hash, h)
  {
    var t := new Traversal(g);
    t.Traverse(root, keyOf, root);
    WalkIsReachability(g, keyOf, root.hash, t.visited);
    blocks := t.found;
  }

  /** The links verification follows: those of a block read without a key, keys ignored. */
  function WithoutKeys(links: seq<Link>): seq<Link> {
    seq(|links|, i requires 0 <= i < |links| => Link(links[i].hash, None))
  }

  function Keyless(g: Graph): Graph {
    Graph(g.present, (h, k) => WithoutKeys(g.links(h, None)))
  }

  /** Whatever the keys, a step of verification leads from a held block, read without a key,
      to the hash of one of its links. */
  lemma KeylessLinks(g: Graph, keyOf: KeyOf, h: Bytes, t: Bytes)
    ensures HasLink(Keyless(g), keyOf, h, t) <==>
      h in g.present && exists i :: 0 <= i < |g.links(h, None)| && g.links(h, None)[i].hash == t
  {
    var links := g.links(h, None);
    assert LinksOf(Keyless(g), keyOf, h) == WithoutKeys(links);
    if i :| 0 <= i < |links| && links[i].hash == t {
      assert WithoutKeys(links)[i].hash == t;
    }
  }

  /** Verification reports exactly the hashes that can be reached but are not held, each
      exactly once, and calls the tree valid when there are none. */
  method VerifyTree(g: Graph, rootHash: Bytes) returns (valid: bool, missing: seq<Bytes>)
    ensures forall i, j :: 0 <= i < j < |missing| ==> missing[i] != missing[j]
    ensures forall h :: h in missing <==> h !in g.present && Reachable(Keyless(g), _ => None, rootHash, h)
    ensures valid <==> forall h :: Reachable(Keyless(g), _ => None, rootHash, h) ==> h in g.present
  {
    var t := new Traversal(Keyless(g));
    ghost var keyOf: KeyOf := _ => None;
    forall h, i | h in g.present && 0 <= i < |LinksOf(Keyless(g), keyOf, h)|
      ensures LinksOf(Keyless(g), keyOf, h)[i].key == None
    {
      assert LinksOf(Keyless(g), keyOf, h) == WithoutKeys(g.links(h, None));
    }
    t.Traverse(Link(rootHash, None), keyOf, Link(rootHash, None));
    WalkIsReachability(Keyless(g), keyOf, rootHash, t.visited);
    missing := t.missing;
    valid := |missing| == 0;
    if !valid {
      assert missing[0] in missing;
    }
  }

  // ------------------------------------------------------------ the parallel pull

  /** The link graph as finite sets: the targets of every held block, and the goal, a set
      that contains the root and is closed under links. */
  datatype Map = Map(targets: map<Bytes, set<Bytes>>, goal: set<Bytes>)

  ghost function Targets(g: Graph, keyOf: KeyOf, h: Bytes): set<Bytes> {
    set i | 0 <= i < |LinksOf(g, keyOf, h)| :: LinksOf(g, keyOf, h)[i].hash
  }

  ghost function MapOf(g: Graph, keyOf: KeyOf, root: Bytes): Map {
    Map(map h | h in g.present :: Targets(g, keyOf, h),
        set h | h in Universe(g, keyOf, root) && Reachable(g, keyOf, root, h))
  }

  ghost predicate Sensible(m: Map, root: Bytes) {
    root in m.goal && forall h :: h in m.goal && h in m.targets ==> m.targets[h] <= m.goal
  }

  lemma MapIsSensible(g: Graph, keyOf: KeyOf, root: Bytes)
    ensures Sensible(MapOf(g, keyOf, root), root)
  {
    var m := MapOf(g, keyOf, root);
    ReachSelf(g, keyOf, root);
    forall h, t | h in m.goal && h in m.targets && t in m.targets[h] ensures t in m.goal {
      assert HasLink(g, keyOf, h, t);
      ReachExtend(g, keyOf, root, h, t);
    }
  }

  /** A visited set closed under links, inside the goal, is what can be reached. */
  lemma VisitedIsReached(g: Graph, keyOf: KeyOf, root: Bytes, v: set<Bytes>)
    requires var m := MapOf(g, keyOf, root);
      root in v && v <= m.goal && forall h :: h in v && h in m.targets ==> m.targets[h] <= v
    ensures forall h :: h in v <==> Reachable(g, keyOf, root, h)
  {
    var m := MapOf(g, keyOf, root);
    forall h, t | h in v && HasLink(g, keyOf, h, t) ensures t in v {
      assert t in m.targets[h];
    }
    WalkIsReachability(g, keyOf, root, v);
  }

  /** Links that may be followed: each carries its one key and leads inside the goal. */
  ghost predicate Followable(links: seq<Link>, keyOf: KeyOf, goal: set<Bytes>) {
    forall i :: 0 <= i < |links| ==> links[i].key == keyOf(links[i].hash) && links[i].hash in goal
  }

  lemma GoalIsFollowable(g: Graph, keyOf: KeyOf, root: Link, m: Map, h: Bytes)
    requires OneKey(g, keyOf, root) && Sensible(m, root.hash) && h in g.present && h in m.goal
    requires h in m.targets && m.targets[h] == Targets(g, keyOf, h)
    ensures Followable(LinksOf(g, keyOf, h), keyOf, m.goal)
  {
    forall i | 0 <= i < |LinksOf(g, keyOf, h)| ensures LinksOf(g, keyOf, h)[i].hash in m.goal {
      assert LinksOf(g, keyOf, h)[i].hash in Targets(g, keyOf, h);
    }
  }

  /** The variables of a pull: hashes waiting for the store, and blocks waiting to be
      decoded. Any of them may be resumed next. */
  class Puller {
    const g: Graph
    var visited: set<Bytes>
    var fetching: set<Bytes>
    var decoding: set<Bytes>
    var keys: map<Bytes, Option<Bytes>>   // the key each pending call was made with
    var chunks: nat
    ghost var counted: set<Bytes>

    ghost predicate Counts()
      reads this
    {
      chunks == |counted| && forall h :: h in counted <==> h in visited && h in g.present && h !in fetching
    }

    ghost predicate Valid(keyOf: KeyOf, m: Map, root: Bytes)
      reads this
    {
      && Counts() && m.targets.Keys == g.present
      && root in visited && visited <= m.goal
      && (forall h :: h in fetching ==> h in visited && h !in decoding && h in keys && keys[h] == keyOf(h))
      && (forall h :: h in decoding ==> h in visited && h in g.present && h in keys && keys[h] == keyOf(h))
      && (forall h :: h in visited && h in g.present && h !in fetching && h !in decoding ==> m.targets[h] <= visited)
    }

    constructor (g: Graph, ghost keyOf: KeyOf, ghost m: Map, root: Link)
      requires root.key == keyOf(root.hash) && root.hash in m.goal && m.targets.Keys == g.present
      ensures Valid(keyOf, m, root.hash) && this.g == g
    {
      this.g := g;
      visited, fetching, decoding, chunks := {root.hash}, {root.hash}, {}, 0;
      keys := map[root.hash := root.key];
      counted := {};
    }

    /** The store answers for one hash: count a held block. */
    method Fetched(h: Bytes, ghost keyOf: KeyOf, ghost m: Map, ghost root: Bytes)
      requires Valid(keyOf, m, root) && h in fetching
      modifies this
      ensures Valid(keyOf, m, root) && visited == old(visited) && fetching == old(fetching) - {h}
      ensures decoding == old(decoding) + if h in g.present then {h} else {}
    {
      assert h !in counted && h !in decoding;
      fetching := fetching - {h};
      if h in g.present {
        decoding := decoding + {h};
        chunks := chunks + 1;
        counted := counted + {h};
      }
      assert Counts();
    }

    /** A link is followed: start a fetch unless the hash has been visited. */
    method Fetch(link: Link, ghost keyOf: KeyOf, ghost m: Map, ghost root: Bytes)
      requires Valid(keyOf, m, root) && link.hash in m.goal && link.key == keyOf(link.hash)
      modifies this
      ensures Valid(keyOf, m, root) && decoding == old(decoding)
      ensures visited == old(visited) + {link.hash} && fetching == old(fetching) + (visited - old(visited))
    {
      if link.hash !in visited {
        visited := visited + {link.hash};
        fetching := fetching + {link.hash};
        keys := keys[link.hash := link.key];
      }
    }

    /** One block has been decoded: follow all its links. */
    method Decoded(h: Bytes, ghost keyOf: KeyOf, ghost m: Map, ghost root: Link)
      requires Valid(keyOf, m, root.hash) && OneKey(g, keyOf, root) && h in decoding
      requires Sensible(m, root.hash) && m.targets[h] == Targets(g, keyOf, h)
      modifies this
      ensures Valid(keyOf, m, root.hash) && old(visited) <= visited && decoding == old(decoding) - {h}
      ensures visited == old(visited) ==> fetching == old(fetching)
    {
      var links := g.links(h, keys[h]);
      GoalIsFollowable(g, keyOf, root, m, h);
      FollowAll(links, keyOf, m, root.hash);
      assert m.targets[h] <= visited;
      decoding := decoding - {h};
    }

    method FollowAll(links: seq<Link>, ghost keyOf: KeyOf, ghost m: Map, ghost root: Bytes)
      requires Valid(keyOf, m, root) && Followable(links, keyOf, m.goal)
      modifies this
      ensures Valid(keyOf, m, root) && old(visited) <= visited && decoding == old(decoding)
      ensures visited == old(visited) ==> fetching == old(fetching)
      ensures forall j :: 0 <= j < |links| ==> links[j].hash in visited
    {
      ghost var v, f, d := visited, fetching, decoding;
      for i := 0 to |links|
        invariant Valid(keyOf, m, root) && v <= visited && decoding == d
        invariant visited == v ==> fetching == f
        invariant forall j :: 0 <= j < i ==> links[j].hash in visited
      {
        Fetch(links[i], keyOf, m, root);
      }
    }
  }

  /** However the pending calls are interleaved, a pull counts the held blocks that can be
      reached: as many as the walk yields. */
  method Pull(g: Graph, root: Link, ghost keyOf: KeyOf) returns (chunks: nat, ghost reached: set<Bytes>)
    requires OneKey(g, keyOf, root)
    ensures chunks == |reached|
    ensures forall h :: h in reached <==> h in g.present && Reachable(g, keyOf, root.hash, h)
  {
    ghost var m := MapOf(g, keyOf, root.hash);
    MapIsSensible(g, keyOf, root.hash);
    var p := new Puller(g, keyOf, m, root);
    while p.fetching != {} || p.decoding != {}
      invariant fresh(p) && p.g == g && p.Valid(keyOf, m, root.hash)
      decreases m.goal - p.visited, p.fetching, p.decoding
    {
      var h :| h in p.fetching + p.decoding;
      if h in p.fetching {
        p.Fetched(h, keyOf, m, root.hash);
      } else {
        p.Decoded(h, keyOf, m, root);
      }
    }
    VisitedIsReached(g, keyOf, root.hash, p.visited);
    reached := p.counted;
    chunks := p.chunks;
  }

  /** The walk and the pull agree on the number of blocks, so the total that a push
      reports at the start is the number of blocks it goes on to count. */
  method PullCountsTheWalk(g: Graph, root: Link, ghost keyOf: KeyOf) returns (chunks: nat, blocks: seq<Bytes>)
    requires OneKey(g, keyOf, root)
    ensures chunks == |blocks|
  {
    ghost var reached: set<Bytes>;
    chunks, reached := Pull(g, root, keyOf);
    blocks := WalkBlocks(g, root, keyOf);
    assert Lists(blocks, reached);
    ListsSize(blocks, reached);
  }
}
