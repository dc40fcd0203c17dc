/** The path trie behind the surface-tree and ancestor-ordering phases.  Children keep insertion
    order, as the source's dictionaries do.  */
module PathTrie {
  import opened ChainModel
  import opened Effects

  datatype Trie<V> = Node(children: seq<(string, Trie<V>)>, value: Option<V>)

  function EmptyTrie<V>(): Trie<V> {
    Node([], None)
  }

  /** The position of a component among the children, or their number. */
  function Position<V>(children: seq<(string, Trie<V>)>, c: string): (i: nat)
    ensures i <= |children|
    ensures i < |children| ==> children[i].0 == c
    ensures forall j :: 0 <= j < i ==> children[j].0 != c
  {
    if children == [] || children[0].0 == c then 0 else 1 + Position(children[1..], c)
  }

  function Child<V>(t: Trie<V>, c: string): Option<Trie<V>> {
    var i := Position(t.children, c);
    if i < |t.children| then Some(t.children[i].1) else None
  }

  /** No component twice among siblings, at any depth. */
  predicate Proper<V>(t: Trie<V>)
    decreases t
  {
    && (forall i, j :: 0 <= i < j < |t.children| ==> t.children[i].0 != t.children[j].0)
    && forall i :: 0 <= i < |t.children| ==> Proper(t.children[i].1)
  }

  function Lookup<V>(t: Trie<V>, p: Path): Option<V> {
    if p == [] then t.value
    else if Child(t, p[0]).Some? then Lookup(Child(t, p[0]).value, p[1..])
    else None
  }

  function Insert<V>(t: Trie<V>, p: Path, v: V): Trie<V>
    decreases p
  {
    if p == [] then t.(value := Some(v))
    else
      var i := Position(t.children, p[0]);
      if i < |t.children| then
        t.(children := t.children[i := (p[0], Insert(t.children[i].1, p[1..], v))])
      else
        t.(children := t.children + [(p[0], Insert(EmptyTrie(), p[1..], v))])
  }

  lemma {:induction false} LookupEmpty<V>(p: Path)
    ensures Lookup(EmptyTrie<V>(), p) == None
  {
  }

  lemma {:induction false} InsertKeepsProper<V>(t: Trie<V>, p: Path, v: V)
    requires Proper(t)
    ensures Proper(Insert(t, p, v))
    decreases p
  {
    if p != [] {
      var i := Position(t.children, p[0]);
      if i < |t.children| {
        InsertKeepsProper(t.children[i].1, p[1..], v);
      } else {
        InsertKeepsProper(EmptyTrie(), p[1..], v);
      }
    }
  }

  lemma PositionIs<V>(children: seq<(string, Trie<V>)>, i: nat)
    requires i < |children|
    requires forall a, b :: 0 <= a < b < |children| ==> children[a].0 != children[b].0
    ensures Position(children, children[i].0) == i
  {
  }

  /** Insertion changes exactly the one path. */
  lemma {:induction false} LookupInsert<V>(t: Trie<V>, p: Path, v: V, q: Path)
    requires Proper(t)
    ensures Lookup(Insert(t, p, v), q) == if q == p then Some(v) else Lookup(t, q)
    decreases p
  {
    if p != [] && q != [] {
      var i := Position(t.children, p[0]);
      var t' := Insert(t, p, v);
      InsertKeepsProper(t, p, v);
      PositionIs(t'.children, i);
      assert q == p <==> q[0] == p[0] && q[1..] == p[1..] by {
        if q[0] == p[0] && q[1..] == p[1..] {
          assert q == [q[0]] + q[1..] && p == [p[0]] + p[1..];
        }
      }
      if q[0] == p[0] {
        if i < |t.children| {
          LookupInsert(t.children[i].1, p[1..], v, q[1..]);
        } else {
          LookupInsert(EmptyTrie<V>(), p[1..], v, q[1..]);
          LookupEmpty<V>(q[1..]);
        }
      } else {
        OtherChild(t, t', i, q[0]);
      }
    }
  }

  lemma OtherChild<V>(t: Trie<V>, t': Trie<V>, i: nat, c: string)
    requires Proper(t) && Proper(t')
    requires i <= |t.children| && |t'.children| == if i < |t.children| then |t.children| else i + 1
    requires forall j :: 0 <= j < |t.children| && j != i ==> t'.children[j] == t.children[j]
    requires t'.children[i].0 != c && (i < |t.children| ==> t.children[i].0 != c)
    ensures Child(t', c) == Child(t, c)
  {
    var k := Position(t.children, c);
    if k < |t.children| {
      assert t'.children[k] == t.children[k];
      PositionIs(t'.children, k);
    } else {
      forall j | 0 <= j < |t'.children| ensures t'.children[j].0 != c {
        if j != i {
          assert t'.children[j] == t.children[j];
        }
      }
    }
  }

  // ---- sizes, for the explicit stack ----

  function Size<V>(t: Trie<V>): nat
    decreases t, 1
  {
    1 + SizeAll(t, |t.children|)
  }

  function SizeAll<V>(t: Trie<V>, n: nat): nat
    requires n <= |t.children|
    decreases t, 0, n
  {
    if n == 0 then 0 else SizeAll(t, n - 1) + Size(t.children[n - 1].1)
  }

  /** A non-empty path reaches a value exactly through one of the children. */
  lemma LookupThroughChild<V>(t: Trie<V>, i: nat, p: Path)
    requires Proper(t) && i < |t.children|
    ensures Lookup(t, [t.children[i].0] + p) == Lookup(t.children[i].1, p)
  {
    PositionIs(t.children, i);
    assert ([t.children[i].0] + p)[1..] == p;
  }

  // ---- walking down ----

  function Descend<V>(t: Trie<V>, p: Path): Option<Trie<V>> {
    if p == [] then Some(t)
    else if Child(t, p[0]).Some? then Descend(Child(t, p[0]).value, p[1..])
    else None
  }

  lemma {:induction false} LookupIsDescend<V>(t: Trie<V>, p: Path)
    ensures Lookup(t, p) == if Descend(t, p).Some? then Descend(t, p).value.value else None
    decreases p
  {
    if p != [] && Child(t, p[0]).Some? {
      LookupIsDescend(Child(t, p[0]).value, p[1..]);
    }
  }

  lemma {:induction false} DescendStep<V>(t: Trie<V>, p: Path, c: string)
    ensures Descend(t, p + [c]) == if Descend(t, p).Some? then Child(Descend(t, p).value, c) else None
    decreases p
  {
    if p == [] {
      assert (p + [c])[1..] == [];
    } else if Child(t, p[0]).Some? {
      assert (p + [c])[1..] == p[1..] + [c];
      DescendStep(Child(t, p[0]).value, p[1..], c);
    }
  }

  lemma {:induction false} DescendNone<V>(t: Trie<V>, p: Path, q: Path)
    requires Descend(t, p).None?
    ensures Descend(t, p + q).None?
    decreases p
  {
    if Child(t, p[0]).Some? {
      assert (p + q)[1..] == p[1..] + q;
      DescendNone(Child(t, p[0]).value, p[1..], q);
    }
  }
}
