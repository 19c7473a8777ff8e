/**
 A run of eight operations on a tree of order 3 after which an inserted key is out of
 reach: insert 3, 1, 7, 4, 9, delete 3, insert 3 again, insert 8, look up 3.
 The keys are the digits.
 */
module BTreeExample {
  import opened Wrappers
  import opened Keys
  import opened BTree
  import opened BTreeProofs
  import opened BTreeRange
  import opened BTreeReinsert
  import opened BTreeInterleaved

  function One<T>(k: Unit, x: T): Dir<T> { [Entry([k], x)] }

  function Two<T>(k: Unit, x: T, l: Unit, y: T): Dir<T> { [Entry([k], x), Entry([l], y)] }

  function L1(k: Unit): Node<()> { Leaf(One(k, ())) }

  function L2(k: Unit, l: Unit): Node<()> { Leaf(Two(k, (), l, ())) }

  function N1(k: Unit, x: Node<()>): Node<()> { Internal(One(k, x)) }

  function N2(k: Unit, x: Node<()>, l: Unit, y: Node<()>): Node<()> { Internal(Two(k, x, l, y)) }

  lemma Order(a: Unit, b: Unit)
    ensures Less([a], [b]) <==> a < b
  {
  }

  lemma Same(a: Unit, b: Unit)
    ensures [a] == [b] <==> a == b
  {
    if [a] == [b] {
      assert [a][0] == [b][0];
    }
  }

  lemma PutOne<T>(k: Unit, x: T, a: Unit, y: T)
    ensures Put(One(a, y), [k], x) == if k == a then One(k, x) else if k < a then Two(k, x, a, y) else Two(a, y, k, x)
  {
    Order(k, a);
    assert One(a, y)[1..] == [];
  }

  lemma PutTwo<T>(k: Unit, x: T, a: Unit, y: T, b: Unit, z: T)
    requires a < b
    ensures Put(Two(a, y, b, z), [k], x) ==
            if k == a then Two(k, x, b, z) else if k == b then Two(a, y, k, x)
            else if k < a then [Entry([k], x), Entry([a], y), Entry([b], z)]
            else if k < b then [Entry([a], y), Entry([k], x), Entry([b], z)]
            else [Entry([a], y), Entry([b], z), Entry([k], x)]
  {
    Order(k, a);
    assert Two(a, y, b, z)[1..] == One(b, z);
    PutOne(k, x, b, z);
  }

  /** A full leaf splits into its least key and the two others. */
  lemma LeafSplits(k: Unit, a: Unit, b: Unit, x: Unit, y: Unit, z: Unit)
    requires a < b && ((x, y, z) == (k, a, b) || (x, y, z) == (a, k, b) || (x, y, z) == (a, b, k)) && x < y < z
    ensures InsertRecursive(2, L2(a, b), [k], ()).split == Some(Split([x], L1(x), [y], L2(y, z)))
  {
    PutTwo(k, (), a, (), b, ());
    var p := Put(Two(a, (), b, ()), [k], ());
    assert p[..1] == One(x, ()) && p[1..] == Two(y, (), z, ());
  }

  /** A full internal node whose right child splits passes the split up. */
  lemma RightSplits(k: Unit, a: Unit, x: Node<()>, b: Unit, y: Node<()>, s: Split<()>, m: Unit, c: Unit)
    requires a < b <= k && b <= m < c
    requires InsertRecursive(2, y, [k], ()).split == Some(s) && s.leftFirstKey == [m] && s.rightFirstKey == [c]
    ensures InsertRecursive(2, N2(a, x, b, y), [k], ()).split == Some(Split([a], N1(a, x), [m], N2(m, s.left, c, s.right)))
  {
    var d := Two(a, x, b, y);
    Order(k, b);
    assert FindChild(d, [k]) == 1;
    Reshape(a, x, b, y, InsertRecursive(2, y, [k], ()).node, m, s.left, c, s.right);
    var e := [Entry([a], x), Entry([m], s.left), Entry([c], s.right)];
    assert e[..1] == One(a, x) && e[1..] == Two(m, s.left, c, s.right);
  }

  lemma Reshape<T>(a: Unit, x: T, b: Unit, y: T, y': T, m: Unit, l: T, c: Unit, r: T)
    requires a < b <= m < c
    ensures SetEntry(SetEntry(Drop(SetEntry(Two(a, x, b, y), [b], y'), [b]), [m], l), [c], r)
            == [Entry([a], x), Entry([m], l), Entry([c], r)]
  {
    PutTwo(b, y', a, x, b, y);
    DropRight(a, x, b, y');
    PutOne(m, l, a, x);
    PutTwo(c, r, a, x, m, l);
  }

  lemma DropRight<T>(a: Unit, x: T, b: Unit, y: T)
    requires a < b
    ensures Drop(Two(a, x, b, y), [b]) == One(a, x)
  {
    Same(a, b);
    var d := Two(a, x, b, y);
    assert d[1..] == One(b, y) && d[1..][1..] == [];
    assert Drop(d[1..][1..], [b]) == [];
    assert Drop(d[1..], [b]) == [];
    assert Drop(d, [b]) == [d[0]] + [];
  }

  /** Inserting into a child that does not split leaves the node's shape alone. */
  lemma Fits(k: Unit, a: Unit, x: Node<()>, b: Unit, y: Node<()>, c: Node<()>)
    requires a < b && InsertRecursive(2, if k < b then x else y, [k], ()) == Inserted(c, None)
    ensures InsertRecursive(2, N2(a, x, b, y), [k], ())
            == Inserted(if k < b then N2(a, c, b, y) else N2(a, x, b, c), None)
  {
    Order(k, b);
    assert FindChild(Two(a, x, b, y), [k]) == if k < b then 0 else 1;
    PutTwo(if k < b then a else b, c, a, x, b, y);
  }

  lemma NewRootOf(a: Unit, x: Node<()>, b: Unit, y: Node<()>)
    requires a < b
    ensures SetEntry(SetEntry([], [a], x), [b], y) == Two(a, x, b, y)
  {
    PutOne(b, y, a, x);
  }

  lemma Route(k: Unit, a: Unit, x: Node<()>, b: Unit, y: Node<()>)
    ensures Get(N2(a, x, b, y), [k]) == Get(if k < b then x else y, [k])
  {
    Order(k, b);
    assert FindChild(Two(a, x, b, y), [k]) == if k < b then 0 else 1;
  }

  lemma InLeaf1(k: Unit, a: Unit)
    ensures Find(One(a, ()), [k]).Some? <==> k == a
    ensures Get(L1(a), [k]).Some? <==> k == a
  {
    Same(a, k);
    var d: Dir<()> := One(a, ());
    assert d[1..] == [] && Find(d[1..], [k]).None?;
    assert d[0].key == [a];
    assert Get(L1(a), [k]) == Find(d, [k]);
  }

  lemma InLeaf2(k: Unit, a: Unit, b: Unit)
    ensures Get(L2(a, b), [k]).Some? <==> k == a || k == b
  {
    Same(a, k);
    InLeaf1(k, b);
    var d: Dir<()> := Two(a, (), b, ());
    assert d[1..] == One(b, ()) && d[0].key == [a];
    assert Get(L2(a, b), [k]) == Find(d, [k]);
  }

  // The digits as code units.
  const D1: Unit := 0x31
  const D3: Unit := 0x33
  const D4: Unit := 0x34
  const D7: Unit := 0x37
  const D8: Unit := 0x38
  const D9: Unit := 0x39

  // The trees after the third, fourth, ... eighth operation.
  const T3: Node<()> := N2(D1, L1(D1), D3, L2(D3, D7))
  const T4: Node<()> := N2(D1, N1(D1, L1(D1)), D3, N2(D3, L1(D3), D4, L2(D4, D7)))
  const LEFT: Node<()> := N1(D1, N1(D1, L1(D1)))
  const T5: Node<()> := N2(D1, LEFT, D3, N2(D3, N1(D3, L1(D3)), D4, N2(D4, L1(D4), D7, L2(D7, D9))))
  const T6: Node<()> := N2(D1, LEFT, D3, N2(D4, L1(D4), D7, L2(D7, D9)))
  const T7: Node<()> := N2(D1, LEFT, D3, N2(D4, L2(D3, D4), D7, L2(D7, D9)))
  const T8: Node<()> := N2(D1, N1(D1, LEFT), D4, N2(D4, N1(D4, L2(D3, D4)), D7, N2(D7, L1(D7), D8, L2(D8, D9))))

  lemma Steps1to3()
    ensures Insert(3, None, [D3], ()) == L1(D3)
    ensures Insert(3, Some(L1(D3)), [D1], ()) == L2(D1, D3)
    ensures Insert(3, Some(L2(D1, D3)), [D7], ()) == T3
  {
    PutOne(D1, (), D3, ());
    InLeaf1(D1, D3);
    InLeaf2(D7, D1, D3);
    LeafSplits(D7, D1, D3, D1, D3, D7);
    NewRootOf(D1, L1(D1), D3, L2(D3, D7));
  }

  lemma Step4()
    ensures Insert(3, Some(T3), [D4], ()) == T4
  {
    Route(D4, D1, L1(D1), D3, L2(D3, D7));
    InLeaf2(D4, D3, D7);
    LeafSplits(D4, D3, D7, D3, D4, D7);
    RightSplits(D4, D1, L1(D1), D3, L2(D3, D7), Split([D3], L1(D3), [D4], L2(D4, D7)), D3, D4);
    NewRootOf(D1, N1(D1, L1(D1)), D3, N2(D3, L1(D3), D4, L2(D4, D7)));
  }

  lemma Step5()
    ensures Insert(3, Some(T4), [D9], ()) == T5
  {
    var y := N2(D3, L1(D3), D4, L2(D4, D7));
    Route(D9, D1, N1(D1, L1(D1)), D3, y);
    Route(D9, D3, L1(D3), D4, L2(D4, D7));
    InLeaf2(D9, D4, D7);
    LeafSplits(D9, D4, D7, D4, D7, D9);
    RightSplits(D9, D3, L1(D3), D4, L2(D4, D7), Split([D4], L1(D4), [D7], L2(D7, D9)), D4, D7);
    var s := Split([D3], N1(D3, L1(D3)), [D4], N2(D4, L1(D4), D7, L2(D7, D9)));
    RightSplits(D9, D1, N1(D1, L1(D1)), D3, y, s, D3, D4);
    NewRootOf(D1, LEFT, D3, N2(D3, N1(D3, L1(D3)), D4, N2(D4, L1(D4), D7, L2(D7, D9))));
  }

  lemma Step6()
    ensures Delete(T5, [D3]) == Some(T6)
  {
    var z := N2(D4, L1(D4), D7, L2(D7, D9));
    var y := N2(D3, N1(D3, L1(D3)), D4, z);
    Order(D3, D4);
    Order(D3, D3);
    InLeaf1(D3, D3);
    assert One(D3, ())[1..] == [] && One(D3, L1(D3))[1..] == [];
    assert Delete(L1(D3), [D3]) == None;
    assert FindChild(One(D3, L1(D3)), [D3]) == 0;
    assert Drop(One(D3, L1(D3)), [D3]) == [];
    assert Delete(N1(D3, L1(D3)), [D3]) == None;
    assert FindChild(Two(D3, N1(D3, L1(D3)), D4, z), [D3]) == 0;
    assert Two(D3, N1(D3, L1(D3)), D4, z)[1..] == One(D4, z) && One(D4, z)[1..] == [];
    assert Drop(Two(D3, N1(D3, L1(D3)), D4, z), [D3]) == One(D4, z);
    assert Delete(y, [D3]) == Some(z);
    assert FindChild(Two(D1, LEFT, D3, y), [D3]) == 1;
    PutTwo(D3, z, D1, LEFT, D3, y);
  }

  lemma Step7()
    ensures Insert(3, Some(T6), [D3], ()) == T7
  {
    var z := N2(D4, L1(D4), D7, L2(D7, D9));
    Route(D3, D1, LEFT, D3, z);
    Route(D3, D4, L1(D4), D7, L2(D7, D9));
    InLeaf1(D3, D4);
    PutOne(D3, (), D4, ());
    Fits(D3, D4, L1(D4), D7, L2(D7, D9), L2(D3, D4));
    Fits(D3, D1, LEFT, D3, z, N2(D4, L2(D3, D4), D7, L2(D7, D9)));
  }

  lemma Step8()
    ensures Insert(3, Some(T7), [D8], ()) == T8
  {
    var z := N2(D4, L2(D3, D4), D7, L2(D7, D9));
    Route(D8, D1, LEFT, D3, z);
    Route(D8, D4, L2(D3, D4), D7, L2(D7, D9));
    InLeaf2(D8, D7, D9);
    LeafSplits(D8, D7, D9, D7, D8, D9);
    RightSplits(D8, D4, L2(D3, D4), D7, L2(D7, D9), Split([D7], L1(D7), [D8], L2(D8, D9)), D7, D8);
    var s := Split([D4], N1(D4, L2(D3, D4)), [D7], N2(D7, L1(D7), D8, L2(D8, D9)));
    RightSplits(D8, D1, LEFT, D3, z, s, D4, D7);
    NewRootOf(D1, N1(D1, LEFT), D4, N2(D4, N1(D4, L2(D3, D4)), D7, N2(D7, L1(D7), D8, L2(D8, D9))));
  }

  const RUN: seq<Op<()>> := [InsertOp([D3], ()), InsertOp([D1], ()), InsertOp([D7], ()), InsertOp([D4], ()), InsertOp([D9], ()),
                             DeleteOp([D3]), InsertOp([D3], ()), InsertOp([D8], ())]

  lemma Step<V>(ops: seq<Op<V>>, n: nat, op: Op<V>, t: Option<Node<V>>, t': Option<Node<V>>)
    requires n < |ops| && ops[n] == op && ApplyAll(3, ops[..n]) == t && Apply(3, t, op) == t'
    ensures ApplyAll(3, ops[..n + 1]) == t'
  {
    assert ops[..n + 1][..n] == ops[..n];
  }

  lemma FirstTwo()
    ensures ApplyAll(3, RUN[..2]) == Some(L2(D1, D3))
  {
    Steps1to3();
    Step(RUN, 0, InsertOp([D3], ()), None, Some(L1(D3)));
    Step(RUN, 1, InsertOp([D1], ()), Some(L1(D3)), Some(L2(D1, D3)));
  }

  lemma FirstThree()
    ensures ApplyAll(3, RUN[..3]) == Some(T3)
  {
    FirstTwo();
    Steps1to3();
    Step(RUN, 2, InsertOp([D7], ()), Some(L2(D1, D3)), Some(T3));
  }

  lemma FirstFour()
    ensures ApplyAll(3, RUN[..4]) == Some(T4)
  {
    FirstThree();
    Step4();
    Step(RUN, 3, InsertOp([D4], ()), Some(T3), Some(T4));
  }

  lemma FirstFive()
    ensures ApplyAll(3, RUN[..5]) == Some(T5)
  {
    FirstFour();
    Step5();
    Step(RUN, 4, InsertOp([D9], ()), Some(T4), Some(T5));
  }

  lemma FirstSeven()
    ensures ApplyAll(3, RUN[..7]) == Some(T7)
  {
    FirstFive();
    Step6();
    Step7();
    Step(RUN, 5, DeleteOp([D3]), Some(T5), Some(T6));
    Step(RUN, 6, InsertOp([D3], ()), Some(T6), Some(T7));
  }

  lemma AllEight()
    ensures ApplyAll(3, RUN) == Some(T8)
  {
    FirstSeven();
    Step8();
    Step(RUN, 7, InsertOp([D8], ()), Some(T7), Some(T8));
    assert RUN[..8] == RUN;
  }

  /** Inserting, deleting, inserting again and inserting another key can lose the key
      that was inserted again: an operation that is not safe was among them. */
  lemma ReinsertedKeyLost()
    ensures Lookup(Meaning(RUN), [D3]) == Some(())
    ensures GetRoot(ApplyAll(3, RUN), [D3]) == None
    ensures !AllSafe(3, RUN)
  {
    AllEight();
    LostIn8();
    StillMeant();
    if AllSafe(3, RUN) {
      SafeFinds([D3]);
    }
  }

  lemma SafeFinds(k: Key)
    requires AllSafe(3, RUN)
    ensures GetRoot(ApplyAll(3, RUN), k) == Lookup(Meaning(RUN), k)
  {
    InterleavedRun(3, RUN);
    ShrunkIsRight(ApplyAll(3, RUN), Meaning(RUN));
  }

  lemma StillMeant()
    ensures Lookup(Meaning(RUN), [D3]) == Some(())
  {
    assert RUN[..7][6] == InsertOp([D3], ());
    assert [D3] in Meaning(RUN[..7]);
    Same(D8, D3);
  }

  lemma LostIn8()
    ensures Get(T8, [D3]) == None
  {
    var right := N2(D4, N1(D4, L2(D3, D4)), D7, N2(D7, L1(D7), D8, L2(D8, D9)));
    Route(D3, D1, N1(D1, LEFT), D4, right);
    InLeaf1(D3, D1);
    assert FindChild(One(D1, LEFT), [D3]) == 0;
    assert Get(N1(D1, L1(D1)), [D3]) == Get(L1(D1), [D3]);
    assert Get(LEFT, [D3]) == Get(N1(D1, L1(D1)), [D3]);
    assert Get(N1(D1, LEFT), [D3]) == Get(LEFT, [D3]);
  }

  // --------------------------------- a stored key that a range walk misses

  lemma OneMoreSafe<V>(ops: seq<Op<V>>, n: nat, op: Op<V>, t: Option<Node<V>>)
    requires n < |ops| && ops[n] == op && AllSafe(3, ops[..n]) && ApplyAll(3, ops[..n]) == t && SafeOp(3, t, op)
    ensures AllSafe(3, ops[..n + 1])
  {
    assert ops[..n + 1][..n] == ops[..n];
    AllSafeParts(3, ops[..n + 1]);
  }

  lemma FiveAreSafe()
    ensures AllSafe(3, RUN[..5])
  {
    InsertionsAreSafe(3, RUN[..5]);
  }

  /** Of the first seven operations none splits a child out of its place. */
  lemma SevenAreSafe()
    ensures AllSafe(3, RUN[..7])
  {
    FiveAreSafe();
    FirstFive();
    OneMoreSafe(RUN, 5, DeleteOp([D3]), Some(T5));
    FirstSix();
    SafeStep7();
    OneMoreSafe(RUN, 6, InsertOp([D3], ()), Some(T6));
  }

  lemma FirstSix()
    ensures ApplyAll(3, RUN[..6]) == Some(T6)
  {
    FirstFive();
    Step6();
    Step(RUN, 5, DeleteOp([D3]), Some(T5), Some(T6));
  }

  lemma SafeStep7()
    ensures Safe(2, T6, [D3])
  {
    var z := N2(D4, L1(D4), D7, L2(D7, D9));
    Order(D3, D3);
    Order(D3, D7);
    assert FindChild(Two(D1, LEFT, D3, z), [D3]) == 1;
    assert FindChild(Two(D4, L1(D4), D7, L2(D7, D9)), [D3]) == 0;
    assert !Splits(2, L1(D4), [D3]);
    assert !Splits(2, z, [D3]);
  }

  lemma Seven3(e: Entry<()>)
    requires e == Entry([D3], ())
    ensures e in Items(N2(D4, L2(D3, D4), D7, L2(D7, D9)))
  {
    var d := Two(D4, L2(D3, D4), D7, L2(D7, D9));
    assert Items(d[0].val)[0] == e;
    assert Flat(d) == Items(d[0].val) + Flat(d[1..]);
    assert Flat(d)[0] == e;
  }

  lemma InnerIsNotExact()
    ensures !Exact(N2(D4, L2(D3, D4), D7, L2(D7, D9)), None, Some([D4]))
  {
    var z := N2(D4, L2(D3, D4), D7, L2(D7, D9));
    Order(D3, D4);
    Order(D4, D4);
    Seven3(Entry([D3], ()));
    SelectIsPart(Items(z), None, Some([D4]));
    assert StartsBeyond(z.kids, Some([D4]));
  }

  lemma NotExact7()
    ensures Reaches(T7, Some([D4])) && !Exact(T7, None, Some([D4]))
  {
    Order(D1, D4);
    InnerIsNotExact();
    var z := N2(D4, L2(D3, D4), D7, L2(D7, D9));
    var d := Two(D1, LEFT, D3, z);
    assert d[0].key == [D1] && !StartsBeyond(d, Some([D4]));
    assert d[1].val == z && !Exact(d[1].val, None, Some([D4]));
  }

  lemma Found7()
    ensures Get(T7, [D3]) == Some(())
  {
    Route(D3, D1, LEFT, D3, N2(D4, L2(D3, D4), D7, L2(D7, D9)));
    Route(D3, D4, L2(D3, D4), D7, L2(D7, D9));
    InLeaf2(D3, D3, D4);
  }

  /** A run in which every lookup is right all along, and after which the walk of the keys
      below 4 misses the stored key 3: it passes over an inner node that is named 4. */
  lemma StoredKeyMissed()
    ensures ApplyAll(3, RUN[..7]) == Some(T7) && AlwaysRight(3, RUN[..7])
    ensures Get(T7, [D3]) == Some(()) && Within([D3], None, Some([D4]))
    ensures Reaches(T7, Some([D4])) && !Exact(T7, None, Some([D4]))
  {
    FirstSeven();
    SevenAreSafe();
    InterleavedRun(3, RUN[..7]);
    Order(D3, D4);
    Found7();
    NotExact7();
  }
}
