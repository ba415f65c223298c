/** The generic configuration node of the surrounding framework, reduced to
    what the loader uses: an optional comment, a raw value that is absent, a
    string, an ordered map of children or a list of children, and the
    `virtual` flag of a node that is not attached to its parent yet. */
module Config {
  import opened Wrappers
  import opened Text

  datatype Value =
    | Null
    | Scalar(raw: string)
    /** Children in the map's iteration order (insertion order). */
    | MapOf(fields: seq<(string, Tree)>)
    | ListOf(items: seq<Tree>)

  datatype Tree = Tree(comment: Option<string>, value: Value, virtual: bool)
  {
    predicate IsMap() {
      value.MapOf?
    }

    predicate IsList() {
      value.ListOf?
    }
  }

  /** The node `node.node(k)` hands out for a child that does not exist yet. */
  const Detached := Tree(None, Null, true)

  /** The keys of an ordered map, in order. */
  function Keys(fields: seq<(string, Tree)>): (ks: seq<string>)
    ensures |ks| == |fields|
    ensures forall i :: 0 <= i < |fields| ==> ks[i] == fields[i].0
  {
    seq(|fields|, i requires 0 <= i < |fields| => fields[i].0)
  }

  predicate DistinctKeys(fields: seq<(string, Tree)>) {
    Distinct(Keys(fields))
  }

  /** A new last child adds its key last. */
  lemma KeysAppend(fields: seq<(string, Tree)>, k: string, c: Tree)
    ensures Keys(fields + [(k, c)]) == Keys(fields) + [k]
  {
    assert Keys(fields + [(k, c)])[|fields|] == k;
  }

  /** The framework's invariant: no map node has two children under one key. */
  predicate WellFormed(t: Tree) {
    match t.value
    case MapOf(fields) =>
      DistinctKeys(fields) && forall i :: 0 <= i < |fields| ==> WellFormed(fields[i].1)
    case ListOf(items) =>
      forall i :: 0 <= i < |items| ==> WellFormed(items[i])
    case _ => true
  }

  /** The first position of key `k`, if any. */
  function FindKey(fields: seq<(string, Tree)>, k: string): (r: Option<nat>)
    ensures r.Some? ==> r.value < |fields| && fields[r.value].0 == k
  {
    if |fields| == 0 then None
    else if fields[0].0 == k then Some(0)
    else match FindKey(fields[1..], k)
      case None => None
      case Some(i) => Some(i + 1)
  }

  /** `FindKey` finds the first position holding `k`, and finds none exactly
      when `k` is not among the keys. */
  lemma {:induction false} FindKeyFirst(fields: seq<(string, Tree)>, k: string)
    ensures FindKey(fields, k).Some? ==> forall j :: 0 <= j < FindKey(fields, k).value ==> fields[j].0 != k
    ensures FindKey(fields, k).None? <==> k !in Keys(fields)
  {
    if |fields| > 0 && fields[0].0 != k {
      FindKeyFirst(fields[1..], k);
      assert forall j :: 1 <= j < |fields| ==> fields[j] == fields[1..][j - 1];
      if k in Keys(fields) {
        var j :| 0 <= j < |fields| && Keys(fields)[j] == k;
        assert Keys(fields[1..])[j - 1] == k;
      }
    }
  }

  /** A position holding `k` with no `k` before it is what `FindKey` finds. */
  lemma {:induction false} FindKeyAt(fields: seq<(string, Tree)>, k: string, i: nat)
    requires i < |fields| && fields[i].0 == k
    requires forall j :: 0 <= j < i ==> fields[j].0 != k
    ensures FindKey(fields, k) == Some(i)
  {
    if i > 0 {
      assert forall j :: 0 <= j < i - 1 ==> fields[1..][j] == fields[j + 1];
      FindKeyAt(fields[1..], k, i - 1);
    }
  }

  /** `node.node(k)`: the child under key `k` if `t` is a map holding one,
      otherwise a new detached node. */
  function KeyChild(t: Tree, k: string): Tree {
    if t.value.MapOf? then
      match FindKey(t.value.fields, k)
      case Some(i) => t.value.fields[i].1
      case None => Detached
    else Detached
  }

  /** A key a map does not hold, or any key of a node that is not a map,
      gives a new detached node. */
  lemma KeyChildAbsent(t: Tree, k: string)
    requires t.value.MapOf? ==> k !in Keys(t.value.fields)
    ensures KeyChild(t, k) == Detached
  {
    if t.value.MapOf? {
      FindKeyFirst(t.value.fields, k);
    }
  }

  /** In a map without repeated keys, asking for a key it holds gives the
      child stored under that key. */
  lemma KeyChildPresent(t: Tree, k: string, i: nat)
    requires t.value.MapOf? && DistinctKeys(t.value.fields)
    requires i < |t.value.fields| && t.value.fields[i].0 == k
    ensures KeyChild(t, k) == t.value.fields[i].1
  {
    var fields := t.value.fields;
    var ks := Keys(fields);
    forall j | 0 <= j < i ensures fields[j].0 != k {
      assert ks[..i][j] == fields[j].0;
    }
    FindKeyAt(fields, k, i);
  }

  /** Attaching `c` as child `k`: `t` becomes a map (dropping a scalar or list
      value it held), an existing child `k` is replaced in place and a new key
      goes last; `t` is attached to its own parent from then on. */
  function PutKeyChild(t: Tree, k: string, c: Tree): (r: Tree)
    ensures r.comment == t.comment && !r.virtual && r.value.MapOf?
  {
    var fields := if t.value.MapOf? then t.value.fields else [];
    var updated := match FindKey(fields, k)
      case Some(i) => fields[i := (k, c)]
      case None => fields + [(k, c)];
    t.(value := MapOf(updated), virtual := false)
  }

  /** After attaching child `k`, asking for child `k` gives it back. */
  lemma PutThenGet(t: Tree, k: string, c: Tree)
    ensures KeyChild(PutKeyChild(t, k, c), k) == c
  {
    var fields := if t.value.MapOf? then t.value.fields else [];
    var updated := PutKeyChild(t, k, c).value.fields;
    var at := if FindKey(fields, k).Some? then FindKey(fields, k).value else |fields|;
    FindKeyFirst(fields, k);
    assert updated[at] == (k, c) && forall j :: 0 <= j < at ==> updated[j].0 != k;
    FindKeyAt(updated, k, at);
  }

  /** A key the node does not have yet goes last; a node that was not a map
      becomes a map with that one child. */
  lemma PutNewKey(t: Tree, k: string, c: Tree)
    requires t.value.MapOf? ==> k !in Keys(t.value.fields)
    ensures PutKeyChild(t, k, c).value.fields ==
      (if t.value.MapOf? then t.value.fields else []) + [(k, c)]
  {
    if t.value.MapOf? {
      FindKeyFirst(t.value.fields, k);
    }
  }

  /** A key the node has already keeps its place: the keys do not change. */
  lemma PutExistingKey(t: Tree, k: string, c: Tree)
    requires t.value.MapOf? && k in Keys(t.value.fields)
    ensures Keys(PutKeyChild(t, k, c).value.fields) == Keys(t.value.fields)
  {
    FindKeyFirst(t.value.fields, k);
    var i := FindKey(t.value.fields, k).value;
    assert Keys(t.value.fields) == Keys(t.value.fields[i := (k, c)]);
  }

  /** `node.node(i)` for an index: the element at `i` if `t` is a list that
      long, otherwise a new detached node. */
  function IndexChild(t: Tree, i: nat): Tree {
    if t.value.ListOf? && i < |t.value.items| then t.value.items[i] else Detached
  }

  /** Attaching `c` as element `i`: `t` becomes a list, an existing element `i`
      is replaced in place, a new element goes last (the loader only asks for
      the next free index). */
  function PutIndexChild(t: Tree, i: nat, c: Tree): (r: Tree)
    ensures r.comment == t.comment && !r.virtual && r.value.ListOf?
  {
    var items := if t.value.ListOf? then t.value.items else [];
    var updated := if i < |items| then items[i := c] else items + [c];
    t.(value := ListOf(updated), virtual := false)
  }

  /** Attaching element `i` replaces an existing element in place and
      appends at any other index. */
  lemma PutIndexItems(t: Tree, i: nat, c: Tree)
    ensures t.value.ListOf? && i < |t.value.items| ==>
      PutIndexChild(t, i, c).value.items == t.value.items[i := c]
    ensures t.value.ListOf? && i >= |t.value.items| ==>
      PutIndexChild(t, i, c).value.items == t.value.items + [c]
    ensures !t.value.ListOf? ==> PutIndexChild(t, i, c).value.items == [c]
  {
  }

  /** `node.raw(v)`: the value is replaced and the node is attached. */
  function SetRaw(t: Tree, v: Value): Tree {
    t.(value := v, virtual := false)
  }

  /** A configuration node object. Its state is a `Tree`; the objects for its
      children are handed out by `Node`/`NodeAt` and their final state is
      made visible through the parent with `PutChild`/`PutChildAt`. */
  class ConfigNode {
    var comment: Option<string>
    var value: Value
    var virtual: bool

    function State(): Tree
      reads this
    {
      Tree(comment, value, virtual)
    }

    constructor (t: Tree)
      ensures State() == t
    {
      comment := t.comment;
      value := t.value;
      virtual := t.virtual;
    }

    /** `node.comment(c)` */
    method SetComment(c: string)
      modifies this
      ensures State() == old(State()).(comment := Some(c))
    {
      comment := Some(c);
    }

    /** `node.raw(v)` */
    method SetRawValue(v: Value)
      modifies this
      ensures State() == SetRaw(old(State()), v)
    {
      value := v;
      virtual := false;
    }

    /** `node.node(k)`: a handle on the child under key `k`. */
    method Node(k: string) returns (child: ConfigNode)
      ensures fresh(child)
      ensures child.State() == KeyChild(State(), k)
    {
      child := new ConfigNode(KeyChild(State(), k));
    }

    /** `node.node(i)`: a handle on the element at index `i`. */
    method NodeAt(i: nat) returns (child: ConfigNode)
      ensures fresh(child)
      ensures child.State() == IndexChild(State(), i)
    {
      child := new ConfigNode(IndexChild(State(), i));
    }

    /** Makes the state of child `k` visible through this node. */
    method PutChild(k: string, c: Tree)
      modifies this
      ensures State() == PutKeyChild(old(State()), k, c)
    {
      var t := PutKeyChild(State(), k, c);
      value := t.value;
      virtual := t.virtual;
    }

    /** Makes the state of element `i` visible through this node. */
    method PutChildAt(i: nat, c: Tree)
      modifies this
      ensures State() == PutIndexChild(old(State()), i, c)
    {
      var t := PutIndexChild(State(), i, c);
      value := t.value;
      virtual := t.virtual;
    }
  }
}
