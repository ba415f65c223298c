/** The YAML node tree produced by the external YAML parser and consumed by
    its printer. Each constructor doubles as the corresponding builder: a
    mapping or sequence builder finalised with a comment, and the plain-scalar
    builder that takes a comment and an inline comment. */
module Yaml {
  import opened Wrappers
  import opened Text

  datatype Node =
    /** Key/value pairs in iteration order; keys are themselves nodes. */
    | Mapping(entries: seq<(Node, Node)>, comment: Option<string>)
    | Sequence(items: seq<Node>, comment: Option<string>)
    | Scalar(value: string, comment: Option<string>, inline: Option<string>)

  /** The key node a mapping builder creates for `add(String key, node)`: a
      plain scalar that carries no comment. */
  function PlainKey(key: string): Node {
    Scalar(key, None, None)
  }

  /** Some key anywhere in the tree is not a scalar. */
  predicate HasComplexKey(n: Node)
    decreases n, 1
  {
    match n
    case Mapping(entries, _) => ComplexKeyBefore(n, |entries|)
    case Sequence(items, _) => ComplexKeyAmong(n, |items|)
    case Scalar(_, _, _) => false
  }

  /** Among the first `k` entries of mapping `n`, some key is not a scalar or
      some value has a complex key. */
  predicate ComplexKeyBefore(n: Node, k: nat)
    requires n.Mapping? && k <= |n.entries|
    decreases n, 0, k
  {
    k > 0 &&
      (ComplexKeyBefore(n, k - 1) || !n.entries[k - 1].0.Scalar? || HasComplexKey(n.entries[k - 1].1))
  }

  /** Among the first `k` elements of sequence `n`, some has a complex key. */
  predicate ComplexKeyAmong(n: Node, k: nat)
    requires n.Sequence? && k <= |n.items|
    decreases n, 0, k
  {
    k > 0 && (ComplexKeyAmong(n, k - 1) || HasComplexKey(n.items[k - 1]))
  }

  /** Every key of mapping `n` is a scalar. */
  predicate ScalarKeys(n: Node)
    requires n.Mapping?
  {
    forall i :: 0 <= i < |n.entries| ==> n.entries[i].0.Scalar?
  }

  /** The strings of the scalar keys of mapping `n`, in order. */
  function KeyStrings(n: Node): (ks: seq<string>)
    requires n.Mapping? && ScalarKeys(n)
    ensures |ks| == |n.entries|
    ensures forall i :: 0 <= i < |ks| ==> ks[i] == n.entries[i].0.value
  {
    seq(|n.entries|, i requires 0 <= i < |n.entries| => n.entries[i].0.value)
  }

  /** Every key of mapping `n` is a scalar and no two keys have the same
      string. */
  predicate DistinctScalarKeys(n: Node)
    requires n.Mapping?
  {
    ScalarKeys(n) && Distinct(KeyStrings(n))
  }

  /** `mapping.value(key)`: the value of the first entry, from position `j`
      on, whose key is `key`, or null when there is none. */
  function LookupFrom(entries: seq<(Node, Node)>, key: Node, j: nat): Option<Node>
    requires j <= |entries|
    decreases |entries| - j
  {
    if j == |entries| then None
    else if entries[j].0 == key then Some(entries[j].1)
    else LookupFrom(entries, key, j + 1)
  }

  /** `mapping.value(key)` on mapping `n`. */
  function Value(n: Node, key: Node): Option<Node>
    requires n.Mapping?
  {
    LookupFrom(n.entries, key, 0)
  }

  /** The lookup from `j` finds entry `i` when no entry between them has the
      same key. */
  lemma {:induction false} LookupFromFinds(entries: seq<(Node, Node)>, key: Node, j: nat, i: nat)
    requires j <= i < |entries| && entries[i].0 == key
    requires forall m :: j <= m < i ==> entries[m].0 != key
    ensures LookupFrom(entries, key, j) == Some(entries[i].1)
    decreases i - j
  {
    if j < i {
      LookupFromFinds(entries, key, j + 1, i);
    }
  }

  /** With distinct scalar keys, looking up the key of entry `i` gives the
      value stored in entry `i`. */
  lemma PairValueIsLookup(n: Node, i: nat)
    requires n.Mapping? && DistinctScalarKeys(n) && i < |n.entries|
    ensures Value(n, n.entries[i].0) == Some(n.entries[i].1)
  {
    var ks := KeyStrings(n);
    forall m | 0 <= m < i ensures n.entries[m].0 != n.entries[i].0 {
      assert ks[..i][m] == ks[m];
    }
    LookupFromFinds(n.entries, n.entries[i].0, 0, i);
  }
}
