/** The tree converter of the YAML loader: reading a parsed YAML tree into a
    configuration node, writing a configuration node as a YAML tree, and the
    decision what may be saved at the root. */
module Loader {
  import opened Wrappers
  import opened Text
  import Yaml
  import opened Config

  /** The parse failure for a mapping key that is not a scalar. */
  const ComplexKeyMessage := "Complex keys not allowed!"

  /** The write failure for a root that is neither a map nor empty. */
  const NotMapMessage := "Can only write nodes that are in map format!"

  /** A parse failure names the node being filled when it was raised. */
  datatype ParseError = ParseError(node: Tree, message: string)

  /** The outcome of reading into a node: its new state, or the failure. */
  datatype ReadResult = Success(value: Tree) | Failure(error: ParseError)

  /** A write failure names the node that cannot be written. */
  datatype WriteError = WriteError(node: Tree, message: string)

  // ---------------------------------------------------------------------
  // Load direction
  // ---------------------------------------------------------------------

  /** A YAML comment that is present and not empty is copied, with "\r\n"
      normalised, onto the target; otherwise the target keeps its comment. */
  function TakeComment(c: Option<string>, t: Tree): Tree {
    if c.Some? && c.value != "" then t.(comment := Some(NormalizeCrlf(c.value))) else t
  }

  /** The state `t` is left in by `readNode(y, t)`: the specification of the
      method `ReadNode`. */
  function Read(y: Yaml.Node, t: Tree): ReadResult
    decreases y, 1
  {
    var t0 := TakeComment(y.comment, t);
    match y
    case Mapping(entries, _) =>
      if |entries| == 0 then Success(SetRaw(t0, MapOf([])))
      else ReadEntries(y, |entries|, t0)
    case Sequence(items, _) =>
      if |items| == 0 then Success(SetRaw(t0, ListOf([])))
      else ReadItems(y, |items|, t0)
    case Scalar(v, _, _) =>
      Success(SetRaw(t0, Config.Scalar(v)))
  }

  /** The state after the first `k` entries of mapping `y` have been read
      into `t0`, each into the child named by its key. */
  function ReadEntries(y: Yaml.Node, k: nat, t0: Tree): ReadResult
    requires y.Mapping? && k <= |y.entries|
    decreases y, 0, k
  {
    if k == 0 then Success(t0)
    else
      match ReadEntries(y, k - 1, t0)
      case Failure(e) => Failure(e)
      case Success(t) =>
        var key := y.entries[k - 1].0;
        if !key.Scalar? then Failure(ParseError(t, ComplexKeyMessage))
        else
          match Read(y.entries[k - 1].1, KeyChild(t, key.value))
          case Failure(e) => Failure(e)
          case Success(c) => Success(PutKeyChild(t, key.value, c))
  }

  /** The state after the first `k` elements of sequence `y` have been read
      into `t0`, element `i` into the child at index `i`. */
  function ReadItems(y: Yaml.Node, k: nat, t0: Tree): ReadResult
    requires y.Sequence? && k <= |y.items|
    decreases y, 0, k
  {
    if k == 0 then Success(t0)
    else
      match ReadItems(y, k - 1, t0)
      case Failure(e) => Failure(e)
      case Success(t) =>
        match Read(y.items[k - 1], IndexChild(t, k - 1))
        case Failure(e) => Failure(e)
        case Success(c) => Success(PutIndexChild(t, k - 1, c))
  }

  /** What a finished read reports: the node's state when nothing failed,
      otherwise the failure. */
  function Outcome(failure: Option<ParseError>, t: Tree): (r: ReadResult)
    ensures r.Success? <==> failure.None?
    ensures r.Success? ==> r.value == t
    ensures r.Failure? ==> r.error == failure.value
  {
    if failure.None? then Success(t) else Failure(failure.value)
  }

  /** `readNode`: fills `node` from `y` depth-first. On success the node is in
      the state `Read` describes; on a complex key the parse failure is
      reported (the node is then only partially filled and is not specified). */
  method ReadNode(y: Yaml.Node, node: ConfigNode) returns (failure: Option<ParseError>)
    modifies node
    decreases y, 2
    ensures Outcome(failure, node.State()) == Read(y, old(node.State()))
  {
    hide ReadEntries, ReadItems;
    if y.comment.Some? && y.comment.value != "" {
      node.SetComment(NormalizeCrlf(y.comment.value));
    }
    match y {
      case Mapping(entries, _) =>
        if |entries| == 0 {
          node.SetRawValue(MapOf([]));
          failure := None;
        } else {
          failure := ReadMapping(y, node);
        }
      case Sequence(items, _) =>
        if |items| == 0 {
          node.SetRawValue(ListOf([]));
          failure := None;
        } else {
          failure := ReadSequence(y, node);
        }
      case Scalar(v, _, _) =>
        node.SetRawValue(Config.Scalar(v));
        failure := None;
    }
  }

  /** The loop of `readNode` over the keys of a non-empty mapping. */
  method ReadMapping(y: Yaml.Node, node: ConfigNode) returns (failure: Option<ParseError>)
    requires y.Mapping? && |y.entries| > 0
    modifies node
    decreases y, 1
    ensures Outcome(failure, node.State()) == ReadEntries(y, |y.entries|, old(node.State()))
  {
    ghost var t0 := node.State();
    var i := 0;
    NoEntriesRead(y, t0);
    hide *;
    failure := None;
    while i < |y.entries| && failure.None?
      invariant 0 <= i <= |y.entries|
      invariant Outcome(failure, node.State()) == ReadEntries(y, if failure.None? then i else |y.entries|, t0)
    {
      failure := ReadEntry(y, i, node, t0);
      i := i + 1;
    }
  }

  /** One turn of that loop: the key at `i` must be a scalar; the value is
      read into the child named by the key, which is then made visible
      through `node`. A failure ends the whole mapping. */
  method ReadEntry(y: Yaml.Node, i: nat, node: ConfigNode, ghost t0: Tree) returns (failure: Option<ParseError>)
    requires y.Mapping? && i < |y.entries|
    requires ReadEntries(y, i, t0) == Success(node.State())
    modifies node
    decreases y, 0
    ensures failure.None? ==> ReadEntries(y, i + 1, t0) == Success(node.State())
    ensures failure.Some? ==> ReadEntries(y, |y.entries|, t0) == Failure(failure.value)
  {
    hide Read, ReadEntries, KeyChild, PutKeyChild, FindKey;
    var key := y.entries[i].0;
    if !key.Scalar? {
      ComplexKeyStep(y, i, t0);
      EntriesFailureSticks(y, i + 1, |y.entries|, t0);
      return Some(ParseError(node.State(), ComplexKeyMessage));
    }
    var child := node.Node(key.value);
    failure := ReadNode(y.entries[i].1, child);
    EntryStep(y, i, t0);
    if failure.Some? {
      EntriesFailureSticks(y, i + 1, |y.entries|, t0);
      return;
    }
    node.PutChild(key.value, child.State());
  }

  /** The loop of `readNode` over the values of a non-empty sequence, with the
      index counter `i`. */
  method ReadSequence(y: Yaml.Node, node: ConfigNode) returns (failure: Option<ParseError>)
    requires y.Sequence? && |y.items| > 0
    modifies node
    decreases y, 1
    ensures Outcome(failure, node.State()) == ReadItems(y, |y.items|, old(node.State()))
  {
    ghost var t0 := node.State();
    var i := 0;
    NoItemsRead(y, t0);
    hide *;
    failure := None;
    while i < |y.items| && failure.None?
      invariant 0 <= i <= |y.items|
      invariant Outcome(failure, node.State()) == ReadItems(y, if failure.None? then i else |y.items|, t0)
    {
      failure := ReadItem(y, i, node, t0);
      i := i + 1;
    }
  }

  /** One turn of that loop: value `i` is read into the child at index `i`,
      which is then made visible through `node`. A failure ends the whole
      sequence. */
  method ReadItem(y: Yaml.Node, i: nat, node: ConfigNode, ghost t0: Tree) returns (failure: Option<ParseError>)
    requires y.Sequence? && i < |y.items|
    requires ReadItems(y, i, t0) == Success(node.State())
    modifies node
    decreases y, 0
    ensures failure.None? ==> ReadItems(y, i + 1, t0) == Success(node.State())
    ensures failure.Some? ==> ReadItems(y, |y.items|, t0) == Failure(failure.value)
  {
    hide Read, ReadItems, IndexChild, PutIndexChild;
    var child := node.NodeAt(i);
    failure := ReadNode(y.items[i], child);
    ItemStep(y, i, t0);
    if failure.Some? {
      ItemsFailureSticks(y, i + 1, |y.items|, t0);
      return;
    }
    node.PutChildAt(i, child.State());
  }

  /** Reading none of the entries leaves the target as it is. */
  lemma NoEntriesRead(y: Yaml.Node, t0: Tree)
    requires y.Mapping?
    ensures ReadEntries(y, 0, t0) == Success(t0)
  {
  }

  /** Reading none of the elements leaves the target as it is. */
  lemma NoItemsRead(y: Yaml.Node, t0: Tree)
    requires y.Sequence?
    ensures ReadItems(y, 0, t0) == Success(t0)
  {
  }

  /** Reading entry `i` after the first `i` entries, for a scalar key. */
  lemma EntryStep(y: Yaml.Node, i: nat, t0: Tree)
    requires y.Mapping? && i < |y.entries| && y.entries[i].0.Scalar?
    requires ReadEntries(y, i, t0).Success?
    ensures var t := ReadEntries(y, i, t0).value;
      var c := Read(y.entries[i].1, KeyChild(t, y.entries[i].0.value));
      ReadEntries(y, i + 1, t0) ==
        if c.Failure? then Failure(c.error) else Success(PutKeyChild(t, y.entries[i].0.value, c.value))
  {
  }

  /** Reading element `i` after the first `i` elements. */
  lemma ItemStep(y: Yaml.Node, i: nat, t0: Tree)
    requires y.Sequence? && i < |y.items|
    requires ReadItems(y, i, t0).Success?
    ensures var t := ReadItems(y, i, t0).value;
      var c := Read(y.items[i], IndexChild(t, i));
      ReadItems(y, i + 1, t0) ==
        if c.Failure? then Failure(c.error) else Success(PutIndexChild(t, i, c.value))
  {
  }

  /** A read of the first `i + 1` entries that succeeds read the first `i`
      successfully, found a scalar key at entry `i`, and attached the value
      read under it. */
  lemma EntrySucceeded(y: Yaml.Node, i: nat, t0: Tree)
    requires y.Mapping? && i < |y.entries|
    requires ReadEntries(y, i + 1, t0).Success?
    ensures ReadEntries(y, i, t0).Success? && y.entries[i].0.Scalar?
    ensures i == 0 ==> ReadEntries(y, i, t0).value == t0
    ensures var t := ReadEntries(y, i, t0).value;
      var key := y.entries[i].0.value;
      var c := Read(y.entries[i].1, KeyChild(t, key));
      c.Success? && ReadEntries(y, i + 1, t0).value == PutKeyChild(t, key, c.value)
  {
  }

  /** A read of the first `i + 1` elements that succeeds read the first `i`
      successfully and attached element `i` at index `i`. */
  lemma ItemSucceeded(y: Yaml.Node, i: nat, t0: Tree)
    requires y.Sequence? && i < |y.items|
    requires ReadItems(y, i + 1, t0).Success?
    ensures ReadItems(y, i, t0).Success?
    ensures i == 0 ==> ReadItems(y, i, t0).value == t0
    ensures var t := ReadItems(y, i, t0).value;
      var c := Read(y.items[i], IndexChild(t, i));
      c.Success? && ReadItems(y, i + 1, t0).value == PutIndexChild(t, i, c.value)
  {
  }

  /** A complex key after the first `i` entries fails the read at that key. */
  lemma ComplexKeyStep(y: Yaml.Node, i: nat, t0: Tree)
    requires y.Mapping? && i < |y.entries| && !y.entries[i].0.Scalar?
    requires ReadEntries(y, i, t0).Success?
    ensures ReadEntries(y, i + 1, t0) == Failure(ParseError(ReadEntries(y, i, t0).value, ComplexKeyMessage))
  {
  }

  /** Once reading the entries fails, reading more of them fails the same way. */
  lemma {:induction false} EntriesFailureSticks(y: Yaml.Node, k: nat, m: nat, t0: Tree)
    requires y.Mapping? && k <= m <= |y.entries|
    requires ReadEntries(y, k, t0).Failure?
    ensures ReadEntries(y, m, t0) == ReadEntries(y, k, t0)
    decreases m
  {
    if m > k {
      EntriesFailureSticks(y, k, m - 1, t0);
      var prev := ReadEntries(y, m - 1, t0);
      assert prev.Failure?;
      assert ReadEntries(y, m, t0) == Failure(prev.error);
    }
  }

  /** Once reading the elements fails, reading more of them fails the same way. */
  lemma {:induction false} ItemsFailureSticks(y: Yaml.Node, k: nat, m: nat, t0: Tree)
    requires y.Sequence? && k <= m <= |y.items|
    requires ReadItems(y, k, t0).Failure?
    ensures ReadItems(y, m, t0) == ReadItems(y, k, t0)
    decreases m
  {
    if m > k {
      ItemsFailureSticks(y, k, m - 1, t0);
      var prev := ReadItems(y, m - 1, t0);
      assert prev.Failure?;
      assert ReadItems(y, m, t0) == Failure(prev.error);
    }
  }

  // ---------------------------------------------------------------------
  // Save direction
  // ---------------------------------------------------------------------

  /** The comment handed to the YAML builders: empty when the node has no
      comment or an empty one, otherwise the comment with every line break
      rewritten to the system separator. */
  function OutgoingComment(comment: Option<string>, sep: string): (c: string)
    requires IsSystemSeparator(sep)
    ensures comment == None || comment == Some("") ==> c == ""
    ensures comment.Some? && comment.value != "" ==> c != ""
    ensures comment.Some? && NoLineBreaks(comment.value) ==> c == comment.value
  {
    if comment.Some? && comment.value != "" then
      if NoLineBreaks(comment.value) then
        ReplaceWithoutBreaks(comment.value, sep);
        ReplaceLineBreaks(comment.value, sep)
      else ReplaceLineBreaks(comment.value, sep)
    else ""
  }

  /** `String.valueOf(node.rawScalar())` for a node that is neither a map nor
      a list: the string itself, or "null" for an absent value. */
  function RawScalarString(v: Value): string {
    match v
    case Scalar(s) => s
    case _ => "null"
  }

  /** `writeNode`: the YAML tree the printer is given for `t`. */
  function WriteNode(t: Tree, sep: string): (y: Yaml.Node)
    requires IsSystemSeparator(sep)
    decreases t
    ensures y.comment == Some(OutgoingComment(t.comment, sep))
    ensures y.Mapping? <==> t.IsMap()
    ensures y.Sequence? <==> t.IsList()
    ensures y.Mapping? ==> |y.entries| == |t.value.fields|
    ensures y.Mapping? ==>
      forall i :: 0 <= i < |y.entries| ==> y.entries[i].0 == Yaml.PlainKey(t.value.fields[i].0)
    ensures y.Sequence? ==> |y.items| == |t.value.items|
    ensures y.Scalar? ==> y.inline == Some("") && y.value == RawScalarString(t.value)
  {
    var c := OutgoingComment(t.comment, sep);
    match t.value
    case MapOf(fields) =>
      Yaml.Mapping(seq(|fields|, i requires 0 <= i < |fields| =>
        (Yaml.PlainKey(fields[i].0), WriteNode(fields[i].1, sep))), Some(c))
    case ListOf(items) =>
      Yaml.Sequence(seq(|items|, i requires 0 <= i < |items| => WriteNode(items[i], sep)), Some(c))
    case _ =>
      Yaml.Scalar(RawScalarString(t.value), Some(c), Some(""))
  }

  /** `checkCanWrite`: a root that is not a map, not virtual and holds a value
      cannot be written. */
  function CheckCanWrite(t: Tree): Option<WriteError> {
    if !t.IsMap() && !t.virtual && t.value != Null then Some(WriteError(t, NotMapMessage))
    else None
  }

  /** The outcome of saving a root: what is emitted, or the failure. */
  datatype SaveResult = Saved(output: Output) | Refused(failure: WriteError)

  /** What `saveInternal` emits. */
  datatype Output =
    /** Only the system line separator: the empty document. */
    | BlankLine(text: string)
    /** The YAML tree the printer writes out. */
    | Printed(document: Yaml.Node)

  /** `saveInternal`: a root that is not a map and is virtual or holds nothing
      is written as one blank line; anything else goes through `writeNode`. */
  function SaveInternal(t: Tree, sep: string): Output
    requires IsSystemSeparator(sep)
  {
    if !t.IsMap() && (t.virtual || t.value == Null) then BlankLine(sep)
    else Printed(WriteNode(t, sep))
  }

  /** Saving a root: the framework runs `checkCanWrite` before any output,
      then `saveInternal`. */
  function Save(t: Tree, sep: string): SaveResult
    requires IsSystemSeparator(sep)
  {
    match CheckCanWrite(t)
    case Some(e) => Refused(e)
    case None => Saved(SaveInternal(t, sep))
  }
}
