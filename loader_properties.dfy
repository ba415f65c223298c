/** What reading a YAML tree into a configuration node does: shape rules,
    comment rules, the complex-key failure, and the round trip through the
    writer. */
module LoaderProperties {
  import opened Wrappers
  import opened Text
  import Yaml
  import opened Config
  import opened Loader

  // ---------------------------------------------------------------------
  // Scalars and empty collections
  // ---------------------------------------------------------------------

  /** A scalar is stored as exactly its string: no number or boolean coercion. */
  lemma ReadScalarKeepsString(v: string, c: Option<string>, inline: Option<string>, t: Tree)
    ensures Read(Yaml.Scalar(v, c, inline), t).Success?
    ensures Read(Yaml.Scalar(v, c, inline), t).value.value == Config.Scalar(v)
  {
  }

  /** An empty mapping becomes an empty map, an empty sequence an empty list,
      whatever the target held before. */
  lemma ReadEmptyCollections(c: Option<string>, t: Tree)
    ensures Read(Yaml.Mapping([], c), t) == Success(SetRaw(TakeComment(c, t), MapOf([])))
    ensures Read(Yaml.Sequence([], c), t) == Success(SetRaw(TakeComment(c, t), ListOf([])))
  {
  }

  /** The document `test: {does-it-work: yes}` read into a new root holds
      the string "yes" at `test/does-it-work`. */
  lemma ReadYesExample()
    ensures var doc := Yaml.Mapping([(Yaml.PlainKey("test"),
                Yaml.Mapping([(Yaml.PlainKey("does-it-work"), Yaml.Scalar("yes", None, None))], None))], None);
      var r := Read(doc, Tree(None, Null, false));
      r.Success? && KeyChild(KeyChild(r.value, "test"), "does-it-work").value == Config.Scalar("yes")
  {
    var inner := Yaml.Mapping([(Yaml.PlainKey("does-it-work"), Yaml.Scalar("yes", None, None))], None);
    var doc := Yaml.Mapping([(Yaml.PlainKey("test"), inner)], None);
    var leaf := SetRaw(Detached, Config.Scalar("yes"));
    var test := PutKeyChild(Detached, "does-it-work", leaf);
    assert Read(inner, Detached) == Success(test);
    var root0 := Tree(None, Null, false);
    var root := PutKeyChild(root0, "test", test);
    assert KeyChild(root0, "test") == Detached;
    assert ReadEntries(doc, 0, root0) == Success(root0);
    assert ReadEntries(doc, 1, root0) == Success(root);
    assert Read(doc, root0) == Success(root);
    PutThenGet(root0, "test", test);
    PutThenGet(Detached, "does-it-work", leaf);
  }

  // ---------------------------------------------------------------------
  // Complex keys
  // ---------------------------------------------------------------------

  /** Reading fails exactly when some mapping key in the tree is not a
      scalar, and the failure then says "Complex keys not allowed!". */
  lemma {:induction false} ReadFailsIffComplexKey(y: Yaml.Node, t: Tree)
    decreases y, 1
    ensures Read(y, t).Failure? <==> Yaml.HasComplexKey(y)
    ensures Read(y, t).Failure? ==> Read(y, t).error.message == ComplexKeyMessage
  {
    hide ReadEntries, ReadItems;
    var t0 := TakeComment(y.comment, t);
    match y
    case Mapping(entries, _) =>
      if |entries| > 0 {
        EntriesFailIffComplexKey(y, |entries|, t0);
      }
    case Sequence(items, _) =>
      if |items| > 0 {
        ItemsFailIffComplexKey(y, |items|, t0);
      }
    case Scalar(_, _, _) =>
  }

  lemma {:induction false} EntriesFailIffComplexKey(y: Yaml.Node, k: nat, t0: Tree)
    requires y.Mapping? && k <= |y.entries|
    decreases y, 0, k
    ensures ReadEntries(y, k, t0).Failure? <==> Yaml.ComplexKeyBefore(y, k)
    ensures ReadEntries(y, k, t0).Failure? ==> ReadEntries(y, k, t0).error.message == ComplexKeyMessage
  {
    hide Read, ReadEntries, ReadItems, KeyChild, PutKeyChild, FindKey;
    if k == 0 {
      NoEntriesRead(y, t0);
    } else {
      EntriesFailIffComplexKey(y, k - 1, t0);
      var prev := ReadEntries(y, k - 1, t0);
      var key := y.entries[k - 1].0;
      if prev.Failure? {
        EntriesFailureSticks(y, k - 1, k, t0);
      } else if !key.Scalar? {
        ComplexKeyStep(y, k - 1, t0);
      } else {
        ReadFailsIffComplexKey(y.entries[k - 1].1, KeyChild(prev.value, key.value));
        EntryStep(y, k - 1, t0);
      }
    }
  }

  lemma {:induction false} ItemsFailIffComplexKey(y: Yaml.Node, k: nat, t0: Tree)
    requires y.Sequence? && k <= |y.items|
    decreases y, 0, k
    ensures ReadItems(y, k, t0).Failure? <==> Yaml.ComplexKeyAmong(y, k)
    ensures ReadItems(y, k, t0).Failure? ==> ReadItems(y, k, t0).error.message == ComplexKeyMessage
  {
    hide Read, ReadEntries, ReadItems, IndexChild, PutIndexChild;
    if k == 0 {
      NoItemsRead(y, t0);
    } else {
      ItemsFailIffComplexKey(y, k - 1, t0);
      var prev := ReadItems(y, k - 1, t0);
      if prev.Failure? {
        ItemsFailureSticks(y, k - 1, k, t0);
      } else {
        ReadFailsIffComplexKey(y.items[k - 1], IndexChild(prev.value, k - 1));
        ItemStep(y, k - 1, t0);
      }
    }
  }

  /** The failure for a complex key is raised before the key is used: the
      node it names is the target as filled by the entries before it. */
  lemma {:induction false} ComplexKeyReportedAtItsNode(y: Yaml.Node, k: nat, t0: Tree)
    requires y.Mapping? && k < |y.entries| && !y.entries[k].0.Scalar?
    requires ReadEntries(y, k, t0).Success?
    ensures ReadEntries(y, |y.entries|, t0) == Failure(ParseError(ReadEntries(y, k, t0).value, ComplexKeyMessage))
  {
    hide Read, ReadEntries;
    ComplexKeyStep(y, k, t0);
    EntriesFailureSticks(y, k + 1, |y.entries|, t0);
  }

  // ---------------------------------------------------------------------
  // Comments
  // ---------------------------------------------------------------------

  /** Reading sets the comment only from a present, non-empty YAML comment, with
      "\r\n" normalised to "\n"; otherwise the target's comment stays. Every
      node that was read is attached. */
  lemma {:induction false} ReadComment(y: Yaml.Node, t: Tree)
    requires Read(y, t).Success?
    ensures Read(y, t).value.comment ==
      if y.comment.Some? && y.comment.value != "" then Some(NormalizeCrlf(y.comment.value)) else t.comment
    ensures !Read(y, t).value.virtual
  {
    hide ReadEntries, ReadItems;
    var t0 := TakeComment(y.comment, t);
    match y
    case Mapping(entries, _) =>
      if |entries| > 0 {
        EntriesKeepComment(y, |entries|, t0);
      }
    case Sequence(items, _) =>
      if |items| > 0 {
        ItemsKeepComment(y, |items|, t0);
      }
    case Scalar(_, _, _) =>
  }

  lemma {:induction false} EntriesKeepComment(y: Yaml.Node, k: nat, t0: Tree)
    requires y.Mapping? && 0 < k <= |y.entries|
    requires ReadEntries(y, k, t0).Success?
    ensures ReadEntries(y, k, t0).value.comment == t0.comment
    ensures !ReadEntries(y, k, t0).value.virtual
  {
    hide Read, ReadEntries;
    EntrySucceeded(y, k - 1, t0);
    if k > 1 {
      EntriesKeepComment(y, k - 1, t0);
    }
  }

  lemma {:induction false} ItemsKeepComment(y: Yaml.Node, k: nat, t0: Tree)
    requires y.Sequence? && 0 < k <= |y.items|
    requires ReadItems(y, k, t0).Success?
    ensures ReadItems(y, k, t0).value.comment == t0.comment
    ensures !ReadItems(y, k, t0).value.virtual
  {
    hide Read, ReadItems;
    ItemSucceeded(y, k - 1, t0);
    if k > 1 {
      ItemsKeepComment(y, k - 1, t0);
    }
  }

  /** A key without a comment reads into a child that reports none. */
  lemma UncommentedChildHasNoComment(y: Yaml.Node)
    requires y.comment == None || y.comment == Some("")
    requires Read(y, Detached).Success?
    ensures Read(y, Detached).value.comment == None
  {
    ReadComment(y, Detached);
  }

  // ---------------------------------------------------------------------
  // Shape rules
  // ---------------------------------------------------------------------

  /** A non-empty mapping with distinct scalar keys, read into a node that
      is not a map yet, gives a map with one child per entry, in the
      mapping's order, each named by its key's string and holding its value
      read into a new node. */
  lemma ReadMappingShape(y: Yaml.Node, t: Tree)
    requires y.Mapping? && |y.entries| > 0 && Yaml.DistinctScalarKeys(y)
    requires !t.value.MapOf?
    requires Read(y, t).Success?
    ensures Read(y, t).value.value.MapOf?
    ensures var fields := Read(y, t).value.value.fields;
      && |fields| == |y.entries|
      && forall j :: 0 <= j < |fields| ==>
           fields[j].0 == y.entries[j].0.value && Read(y.entries[j].1, Detached) == Success(fields[j].1)
  {
    hide ReadEntries;
    EntriesShape(y, |y.entries|, TakeComment(y.comment, t));
  }

  lemma {:induction false} EntriesShape(y: Yaml.Node, k: nat, t0: Tree)
    requires y.Mapping? && 0 < k <= |y.entries| && Yaml.DistinctScalarKeys(y)
    requires !t0.value.MapOf?
    requires ReadEntries(y, k, t0).Success?
    ensures ReadEntries(y, k, t0).value.value.MapOf?
    ensures var fields := ReadEntries(y, k, t0).value.value.fields;
      && |fields| == k
      && forall j :: 0 <= j < k ==>
           fields[j].0 == y.entries[j].0.value && Read(y.entries[j].1, Detached) == Success(fields[j].1)
  {
    hide Read, ReadEntries;
    EntrySucceeded(y, k - 1, t0);
    var key := y.entries[k - 1].0.value;
    var t := ReadEntries(y, k - 1, t0).value;
    if k > 1 {
      EntriesShape(y, k - 1, t0);
      assert Keys(t.value.fields) == Yaml.KeyStrings(y)[..k - 1];
      assert key !in Keys(t.value.fields) by {
        assert Yaml.KeyStrings(y)[k - 1] == key;
      }
    }
    assert KeyChild(t, key) == Detached;
    var c := Read(y.entries[k - 1].1, Detached).value;
    PutNewKey(t, key, c);
  }

  /** A non-empty sequence read into a node that is not a list yet gives a
      list of the same length in which element `k` is value `k` of the
      sequence read into a new node. */
  lemma ReadSequenceShape(y: Yaml.Node, t: Tree)
    requires y.Sequence? && |y.items| > 0
    requires !t.value.ListOf?
    requires Read(y, t).Success?
    ensures Read(y, t).value.value.ListOf?
    ensures var items := Read(y, t).value.value.items;
      && |items| == |y.items|
      && forall k :: 0 <= k < |items| ==> Read(y.items[k], Detached) == Success(items[k])
  {
    hide ReadItems;
    ItemsShape(y, |y.items|, TakeComment(y.comment, t));
  }

  lemma {:induction false} ItemsShape(y: Yaml.Node, k: nat, t0: Tree)
    requires y.Sequence? && 0 < k <= |y.items|
    requires !t0.value.ListOf?
    requires ReadItems(y, k, t0).Success?
    ensures ReadItems(y, k, t0).value.value.ListOf?
    ensures var items := ReadItems(y, k, t0).value.value.items;
      && |items| == k
      && forall j :: 0 <= j < k ==> Read(y.items[j], Detached) == Success(items[j])
  {
    hide Read, ReadItems;
    ItemSucceeded(y, k - 1, t0);
    if k > 1 {
      ItemsShape(y, k - 1, t0);
    }
  }

  /** Reading keeps the framework's invariant: a well-formed target stays
      well-formed, so no map ever holds two children under one key. */
  lemma {:induction false} ReadKeepsWellFormed(y: Yaml.Node, t: Tree)
    requires WellFormed(t)
    requires Read(y, t).Success?
    decreases y, 1
    ensures WellFormed(Read(y, t).value)
  {
    hide ReadEntries, ReadItems;
    var t0 := TakeComment(y.comment, t);
    match y
    case Mapping(entries, _) =>
      if |entries| > 0 {
        EntriesKeepWellFormed(y, |entries|, t0);
      }
    case Sequence(items, _) =>
      if |items| > 0 {
        ItemsKeepWellFormed(y, |items|, t0);
      }
    case Scalar(_, _, _) =>
  }

  lemma {:induction false} EntriesKeepWellFormed(y: Yaml.Node, k: nat, t0: Tree)
    requires y.Mapping? && k <= |y.entries|
    requires WellFormed(t0)
    requires ReadEntries(y, k, t0).Success?
    decreases y, 0, k
    ensures WellFormed(ReadEntries(y, k, t0).value)
  {
    hide Read, ReadEntries, ReadItems;
    if k == 0 {
      NoEntriesRead(y, t0);
    } else {
      EntrySucceeded(y, k - 1, t0);
      EntriesKeepWellFormed(y, k - 1, t0);
      var t := ReadEntries(y, k - 1, t0).value;
      var key := y.entries[k - 1].0.value;
      var child := KeyChild(t, key);
      KeyChildWellFormed(t, key);
      ReadKeepsWellFormed(y.entries[k - 1].1, child);
      PutKeepsWellFormed(t, key, Read(y.entries[k - 1].1, child).value);
    }
  }

  lemma {:induction false} ItemsKeepWellFormed(y: Yaml.Node, k: nat, t0: Tree)
    requires y.Sequence? && k <= |y.items|
    requires WellFormed(t0)
    requires ReadItems(y, k, t0).Success?
    decreases y, 0, k
    ensures WellFormed(ReadItems(y, k, t0).value)
  {
    hide Read, ReadEntries, ReadItems;
    if k == 0 {
      NoItemsRead(y, t0);
    } else {
      ItemSucceeded(y, k - 1, t0);
      ItemsKeepWellFormed(y, k - 1, t0);
      var t := ReadItems(y, k - 1, t0).value;
      var child := IndexChild(t, k - 1);
      ReadKeepsWellFormed(y.items[k - 1], child);
      var r := PutIndexChild(t, k - 1, Read(y.items[k - 1], child).value);
      assert forall i :: 0 <= i < |r.value.items| ==> WellFormed(r.value.items[i]);
    }
  }

  /** The child handed out for a key of a well-formed node is well-formed. */
  lemma KeyChildWellFormed(t: Tree, k: string)
    requires WellFormed(t)
    ensures WellFormed(KeyChild(t, k))
  {
    if t.value.MapOf? && FindKey(t.value.fields, k).Some? {
      var i := FindKey(t.value.fields, k).value;
      assert KeyChild(t, k) == t.value.fields[i].1;
    }
  }

  /** Attaching a well-formed child keeps a well-formed node well-formed. */
  lemma PutKeepsWellFormed(t: Tree, k: string, c: Tree)
    requires WellFormed(t) && WellFormed(c)
    ensures WellFormed(PutKeyChild(t, k, c))
  {
    var r := PutKeyChild(t, k, c);
    if t.value.MapOf? && k in Keys(t.value.fields) {
      PutExistingKey(t, k, c);
      assert forall i :: 0 <= i < |r.value.fields| ==> r.value.fields[i].0 == Keys(t.value.fields)[i];
    } else {
      var fields := if t.value.MapOf? then t.value.fields else [];
      PutNewKey(t, k, c);
      KeysAppend(fields, k, c);
      DistinctAppend(Keys(fields), k);
    }
  }

  // ---------------------------------------------------------------------
  // Round trip through the writer
  // ---------------------------------------------------------------------

  /** A tree built from maps with distinct string keys, lists and string
      scalars only, whose comments contain no '\r'. */
  predicate Plain(t: Tree) {
    && (t.comment.Some? ==> NoCarriageReturn(t.comment.value))
    && match t.value
       case Null => false
       case Scalar(_) => true
       case MapOf(fields) =>
         DistinctKeys(fields) && forall i :: 0 <= i < |fields| ==> Plain(fields[i].1)
       case ListOf(items) =>
         forall i :: 0 <= i < |items| ==> Plain(items[i])
  }

  /** What reading a written tree gives back: the same values everywhere,
      empty comments dropped, every node attached. */
  function Loaded(t: Tree): Tree {
    var comment := if t.comment == Some("") then None else t.comment;
    match t.value
    case MapOf(fields) =>
      Tree(comment, MapOf(seq(|fields|, i requires 0 <= i < |fields| => (fields[i].0, Loaded(fields[i].1)))), false)
    case ListOf(items) =>
      Tree(comment, ListOf(seq(|items|, i requires 0 <= i < |items| => Loaded(items[i]))), false)
    case _ =>
      Tree(comment, t.value, false)
  }

  /** Reading the written form of a plain tree into a new node reproduces its
      values, and its non-empty comments, at every level. */
  lemma {:induction false} RoundTrip(t: Tree, sep: string, target: Tree)
    requires Plain(t) && IsSystemSeparator(sep)
    requires target.comment == None && target.value == Null
    decreases t, 1
    ensures Read(WriteNode(t, sep), target) == Success(Loaded(t))
  {
    hide ReadEntries, ReadItems;
    var y := WriteNode(t, sep);
    var out := OutgoingComment(t.comment, sep);
    var t0 := TakeComment(y.comment, target);
    if t.comment.Some? && t.comment.value != "" {
      NormalizeUndoesReplace(t.comment.value, sep);
    }
    assert t0 == target.(comment := Loaded(t).comment);
    match t.value
    case MapOf(fields) =>
      if |fields| > 0 {
        FieldsRoundTrip(t, |fields|, sep, t0);
        assert Loaded(t).value.fields[..|fields|] == Loaded(t).value.fields;
      }
    case ListOf(items) =>
      if |items| > 0 {
        ItemsRoundTrip(t, |items|, sep, t0);
        assert Loaded(t).value.items[..|items|] == Loaded(t).value.items;
      }
    case Scalar(_) =>
  }

  /** The first `k` entries of a written map, read back, give the first `k`
      children, each read back. */
  lemma {:induction false} FieldsRoundTrip(t: Tree, k: nat, sep: string, t0: Tree)
    requires Plain(t) && IsSystemSeparator(sep) && t.value.MapOf?
    requires 0 < k <= |t.value.fields|
    requires t0.value == Null
    decreases t, 0, k
    ensures ReadEntries(WriteNode(t, sep), k, t0) ==
      Success(t0.(value := MapOf(Loaded(t).value.fields[..k]), virtual := false))
  {
    hide Read, ReadEntries, KeyChild, PutKeyChild, FindKey, WriteNode;
    var y := WriteNode(t, sep);
    var fields := t.value.fields;
    var key := fields[k - 1].0;
    var child := Loaded(fields[k - 1].1);
    var loaded := Loaded(t).value.fields;
    LoadedPrefixStep(t, k);
    var prev := if k > 1 then t0.(value := MapOf(loaded[..k - 1]), virtual := false) else t0;
    if k > 1 {
      FieldsRoundTrip(t, k - 1, sep, t0);
      LoadedKeysBefore(t, k - 1);
    } else {
      NoEntriesRead(y, t0);
      assert loaded[..k] == [] + [(key, child)];
    }
    KeyChildAbsent(prev, key);
    WrittenEntry(t, k - 1, sep);
    RoundTrip(fields[k - 1].1, sep, Detached);
    EntryStep(y, k - 1, t0);
    PutNewKey(prev, key, child);
  }

  /** The first `k` children of a read-back map are the first `k - 1` and
      then child `k - 1` read back, under its key. */
  lemma LoadedPrefixStep(t: Tree, k: nat)
    requires t.value.MapOf? && 0 < k <= |t.value.fields|
    ensures |Loaded(t).value.fields| == |t.value.fields|
    ensures Loaded(t).value.fields[..k] ==
      Loaded(t).value.fields[..k - 1] + [(t.value.fields[k - 1].0, Loaded(t.value.fields[k - 1].1))]
  {
    var loaded := Loaded(t).value.fields;
    assert loaded[k - 1] == (t.value.fields[k - 1].0, Loaded(t.value.fields[k - 1].1));
    assert loaded[..k] == loaded[..k - 1] + [loaded[k - 1]];
  }

  /** Entry `i` of a written map is child `i` written under its key. */
  lemma WrittenEntry(t: Tree, i: nat, sep: string)
    requires IsSystemSeparator(sep) && t.value.MapOf? && i < |t.value.fields|
    ensures WriteNode(t, sep).entries[i] == (Yaml.PlainKey(t.value.fields[i].0), WriteNode(t.value.fields[i].1, sep))
  {
  }

  /** In a plain map, key `k` of the read-back map does not occur among the
      first `k` keys. */
  lemma LoadedKeysBefore(t: Tree, k: nat)
    requires Plain(t) && t.value.MapOf? && k < |t.value.fields|
    ensures t.value.fields[k].0 !in Keys(Loaded(t).value.fields[..k])
  {
    var loaded := Loaded(t).value.fields;
    assert Keys(loaded[..k]) == Keys(t.value.fields)[..k];
  }

  /** The first `k` elements of a written list, read back, give the first `k`
      elements, each read back, at the same indices. */
  lemma {:induction false} ItemsRoundTrip(t: Tree, k: nat, sep: string, t0: Tree)
    requires Plain(t) && IsSystemSeparator(sep) && t.value.ListOf?
    requires 0 < k <= |t.value.items|
    requires t0.value == Null
    decreases t, 0, k
    ensures ReadItems(WriteNode(t, sep), k, t0) ==
      Success(t0.(value := ListOf(Loaded(t).value.items[..k]), virtual := false))
  {
    hide Read, ReadItems, PutIndexChild, WriteNode;
    var y := WriteNode(t, sep);
    var items := t.value.items;
    var child := Loaded(items[k - 1]);
    var loaded := Loaded(t).value.items;
    LoadedItemsPrefixStep(t, k);
    var prev := if k > 1 then t0.(value := ListOf(loaded[..k - 1]), virtual := false) else t0;
    if k > 1 {
      ItemsRoundTrip(t, k - 1, sep, t0);
    } else {
      NoItemsRead(y, t0);
      assert loaded[..k] == [child];
    }
    WrittenItem(t, k - 1, sep);
    RoundTrip(items[k - 1], sep, Detached);
    ItemStep(y, k - 1, t0);
    PutIndexItems(prev, k - 1, child);
  }

  /** The first `k` elements of a read-back list are the first `k - 1` and
      then element `k - 1` read back. */
  lemma LoadedItemsPrefixStep(t: Tree, k: nat)
    requires t.value.ListOf? && 0 < k <= |t.value.items|
    ensures |Loaded(t).value.items| == |t.value.items|
    ensures Loaded(t).value.items[..k] == Loaded(t).value.items[..k - 1] + [Loaded(t.value.items[k - 1])]
  {
    var loaded := Loaded(t).value.items;
    assert loaded[k - 1] == Loaded(t.value.items[k - 1]);
    assert loaded[..k] == loaded[..k - 1] + [loaded[k - 1]];
  }

  /** Element `i` of a written list is element `i` written. */
  lemma WrittenItem(t: Tree, i: nat, sep: string)
    requires IsSystemSeparator(sep) && t.value.ListOf? && i < |t.value.items|
    ensures WriteNode(t, sep).items[i] == WriteNode(t.value.items[i], sep)
  {
  }

  // ---------------------------------------------------------------------
  // What may be saved at the root
  // ---------------------------------------------------------------------

  /** `checkCanWrite` refuses exactly a node that is not a map, not virtual
      and holds a value, and names that node in the failure. */
  lemma CheckCanWriteExactly(t: Tree)
    ensures CheckCanWrite(t).Some? <==> !t.IsMap() && !t.virtual && t.value != Null
    ensures CheckCanWrite(t).Some? ==> CheckCanWrite(t).value == WriteError(t, NotMapMessage)
  {
  }

  /** Saving fails exactly for a root that is not a map, not virtual and holds
      a value; a root that is not a map and is virtual or holds nothing is
      saved as one system line separator; `writeNode` runs only for a map,
      and the printer then gets a mapping. */
  lemma SaveDispatch(t: Tree, sep: string)
    requires IsSystemSeparator(sep)
    ensures Save(t, sep).Refused? <==> !t.IsMap() && !t.virtual && t.value != Null
    ensures Save(t, sep).Refused? ==> Save(t, sep).failure == WriteError(t, NotMapMessage)
    ensures Save(t, sep) == Saved(BlankLine(sep)) <==> !t.IsMap() && (t.virtual || t.value == Null)
    ensures Save(t, sep).Saved? && Save(t, sep).output.Printed? ==>
      && t.IsMap()
      && Save(t, sep).output.document == WriteNode(t, sep)
      && Save(t, sep).output.document.Mapping?
  {
  }
}
