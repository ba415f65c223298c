# configurate-eo-yaml: a verified model of the tree converter and the header codec

configurate-eo-yaml is the YAML format loader of the Configurate framework. It is built on
the eo-yaml library. This project models its two non-trivial pieces.

- The **tree converter** (`EOYamlConfigurationLoader`):
  - `readNode` fills a configuration node in place from a parsed YAML tree. It walks mapping,
    sequence and scalar nodes depth-first, copies non-empty comments with "\r\n" normalised
    to "\n", and rejects a mapping key that is not a scalar.
  - `writeNode` turns a configuration node into the YAML tree handed to eo-yaml's printer.
    Comment line breaks become the system separator.
  - `checkCanWrite` and the empty-root branch of `saveInternal` decide what may be saved at
    the root.
- The **header codec** (`YamlCommentHandler`):
  - `extractHeader` is a line-by-line state machine over the start of a document. It starts
    with a one-character `#` peek, then reads the first line, then later comment lines. It
    stops at a blank or `---` line, gives up (null) on any other line, or reaches the end of
    the input.
  - `toComment` prefixes every header line with `#` and appends the `---` marker.

## Modules

- `Wrappers`: `Option`.
- `Text` (`text.dfy`): Java string operations written out as left-to-right scans:
  - `replace("\r\n", "\n")` is `NormalizeCrlf`, and `replaceAll("\\r?\\n", sep)` is
    `ReplaceLineBreaks`;
  - `String.trim()` (characters up to U+0020), `indexOf` and the one-space strip.
- `Yaml` (`yaml.dfy`): the immutable YAML node tree.
  - The eo-yaml builders are its constructors.
  - A key added with `add(String, node)` is a plain scalar without a comment (`PlainKey`).
- `Config` (`config.dfy`): the framework's node, reduced to what the loader uses.
  - A `Tree` value holds a comment, a raw value (absent, string, ordered map or list) and the
    `virtual` flag.
  - The class `ConfigNode` is the mutable node `readNode` fills. Its methods are `comment(c)`,
    `raw(v)`, and get-or-create `node(k)` / `node(i)`.
  - The functions `KeyChild` and `PutKeyChild` (and their index twins) say which child
    `node(k)` hands out and how its state becomes part of the parent.
- `Loader` (`loader.dfy`):
  - the method `ReadNode` and its loops `ReadMapping`/`ReadEntry` and
    `ReadSequence`/`ReadItem`, proved against the function `Read`;
  - `WriteNode`, `CheckCanWrite`, `SaveInternal` and `Save`.
- `LoaderProperties` (`loader_properties.dfy`): the shape, comment, complex-key,
  well-formedness and save rules, and the round trip `Read(WriteNode(t))`.
- `CommentHandler` (`comment_handler.dfy`):
  - `ReadLine` models `BufferedReader.readLine`, which ends a line at "\n", "\r" or "\r\n".
  - `Scan` is the reading loop and `Header` the whole of `extractHeader`.
  - The method `ExtractHeader` is proved against `Header`.
  - Also `ToComment`.
- `CommentHandlerProperties` (`comment_handler_properties.dfy`): one lemma per rule of the
  reading loop, and the header round trip through `toComment`.

The system line separator is a parameter `sep` that is "\n" or "\r\n". The framework's line
separator inside comments is "\n". The framework's `Strings.isBlank` is a parameter
`blank: string -> bool`. Only one lemma assumes anything about it: that it accepts "".

A failing `readNode` throws. The model returns the failure instead: `ReadNode` returns
`Some(ParseError(node, "Complex keys not allowed!"))`. Here `node` is the state of the node
being filled when the exception is raised.

Where the project's documentation and the code differ, the model follows the code:

- The project's documentation says a write-then-read round trip keeps comments exactly. The code
  changes some of them:
  - `writeNode` turns an empty comment into "", and `readNode` ignores it, so the comment
    comes back absent;
  - a comment holding "\r" can come back changed.

  `RoundTrip` therefore asks for comments without "\r" and compares against `Loaded`, which
  drops empty comments.
- The documentation allows the round trip to reorder children. The code keeps both map order
  and list order, and `RoundTrip` proves that.

## Model

| member | source | states |
|---|---|---|
| Loader.ReadNode | src/main/java/com/hpfxd/configurate/eoyaml/EOYamlConfigurationLoader.java:117-174 | On success the node ends in exactly the state `Read` gives for its initial state. On failure the method returns the failure `Read` reports. |
| Loader.Read | src/main/java/com/hpfxd/configurate/eoyaml/EOYamlConfigurationLoader.java:117-174 | Definition: the state `readNode` leaves the node in, or its failure. `ReadNode` is proved to end in it; `ReadFailsIffComplexKey`, `ReadComment`, `ReadMappingShape`, `ReadSequenceShape` and `RoundTrip` state what it means. |
| Loader.TakeComment | src/main/java/com/hpfxd/configurate/eoyaml/EOYamlConfigurationLoader.java:118-126 | Definition: a present, non-empty comment replaces the target's, with "\r\n" normalised; see `ReadComment` and `UncommentedChildHasNoComment`. |
| Loader.ReadEntries | src/main/java/com/hpfxd/configurate/eoyaml/EOYamlConfigurationLoader.java:134-149 | Definition: the key loop after `k` entries; see `EntryStep`, `EntrySucceeded`, `ComplexKeyStep`, `EntriesFailureSticks`, `EntriesShape` and `EntriesFailIffComplexKey`. |
| Loader.ReadItems | src/main/java/com/hpfxd/configurate/eoyaml/EOYamlConfigurationLoader.java:158-165 | Definition: the value loop after `k` elements; see `ItemStep`, `ItemSucceeded`, `ItemsFailureSticks`, `ItemsShape` and `ItemsFailIffComplexKey`. |
| Loader.ReadMapping | src/main/java/com/hpfxd/configurate/eoyaml/EOYamlConfigurationLoader.java:134-150 | The key loop leaves the node as `ReadEntries` over all entries says, or stops with the first failure. |
| Loader.ReadEntry | src/main/java/com/hpfxd/configurate/eoyaml/EOYamlConfigurationLoader.java:135-149 | One turn of the key loop. A non-scalar key fails the whole mapping with the node as filled so far. Otherwise the value is read into `node(key)` and attached, or its failure ends the mapping. |
| Loader.ReadSequence | src/main/java/com/hpfxd/configurate/eoyaml/EOYamlConfigurationLoader.java:158-166 | The value loop with counter `i` leaves the node as `ReadItems` over all values says, or stops with the first failure. |
| Loader.ReadItem | src/main/java/com/hpfxd/configurate/eoyaml/EOYamlConfigurationLoader.java:160-165 | One turn of the value loop: value `i` is read into `node(i)` and attached at index `i`, or its failure ends the sequence. |
| Loader.EntryStep | src/main/java/com/hpfxd/configurate/eoyaml/EOYamlConfigurationLoader.java:145-148 | Reading entry `i`, whose key is a scalar, reads its value into the child named by the key's string and attaches the result under that key. |
| Loader.ItemStep | src/main/java/com/hpfxd/configurate/eoyaml/EOYamlConfigurationLoader.java:160-164 | Reading element `i` reads it into the child at index `i` and attaches the result there. |
| Loader.EntrySucceeded | src/main/java/com/hpfxd/configurate/eoyaml/EOYamlConfigurationLoader.java:135-149 | If reading `i + 1` entries succeeds, then the first `i` succeeded, key `i` is a scalar, and its value was read and attached. |
| Loader.ItemSucceeded | src/main/java/com/hpfxd/configurate/eoyaml/EOYamlConfigurationLoader.java:159-165 | If reading `i + 1` elements succeeds, then the first `i` succeeded and element `i` was read and attached at index `i`. |
| Loader.ComplexKeyStep | src/main/java/com/hpfxd/configurate/eoyaml/EOYamlConfigurationLoader.java:138-142 | A non-scalar key fails the read with "Complex keys not allowed!" and names the node as filled by the earlier keys. |
| Loader.EntriesFailureSticks | src/main/java/com/hpfxd/configurate/eoyaml/EOYamlConfigurationLoader.java:138-148 | Once a failure is raised, no later entry changes the outcome: the exception leaves the loop. |
| Loader.ItemsFailureSticks | src/main/java/com/hpfxd/configurate/eoyaml/EOYamlConfigurationLoader.java:160-165 | Once an element fails, no later element changes the outcome. |
| Loader.OutgoingComment | src/main/java/com/hpfxd/configurate/eoyaml/EOYamlConfigurationLoader.java:196-208 | The outgoing comment is "" for an absent or empty comment and non-empty otherwise. A comment without line breaks passes unchanged. |
| Loader.WriteNode | src/main/java/com/hpfxd/configurate/eoyaml/EOYamlConfigurationLoader.java:211-238 | A map becomes a mapping with as many entries, each keyed by a plain scalar of its key, in the same order. A list becomes a sequence of the same length. Anything else becomes a plain scalar of the raw value's string with inline comment "". Every node carries the outgoing comment. |
| Loader.RawScalarString | src/main/java/com/hpfxd/configurate/eoyaml/EOYamlConfigurationLoader.java:234 | Definition of `String.valueOf(node.rawScalar())`: the string itself, "null" for anything else; see `WriteNode` and `RoundTrip`. |
| Loader.CheckCanWrite | src/main/java/com/hpfxd/configurate/eoyaml/EOYamlConfigurationLoader.java:91-94 | Definition; see `CheckCanWriteExactly`. |
| Loader.SaveInternal | src/main/java/com/hpfxd/configurate/eoyaml/EOYamlConfigurationLoader.java:177-189 | Definition; see `SaveDispatch`. |
| Loader.Save | src/main/java/com/hpfxd/configurate/eoyaml/EOYamlConfigurationLoader.java:177-189 | Definition: `checkCanWrite` first, then `saveInternal`; see `SaveDispatch`. |
| LoaderProperties.ReadScalarKeepsString | src/main/java/com/hpfxd/configurate/eoyaml/EOYamlConfigurationLoader.java:169-172 | A scalar is stored as exactly its string, with no coercion. |
| LoaderProperties.ReadEmptyCollections | src/main/java/com/hpfxd/configurate/eoyaml/EOYamlConfigurationLoader.java:129-157 | An empty mapping sets the raw value to an empty map and an empty sequence sets it to an empty list, whatever the node held. |
| LoaderProperties.ReadYesExample | src/test/java/com/hpfxd/configurate/eoyaml/test/EOYamlConfigurationLoaderTest.java:29-31 | Reading `test: {does-it-work: yes}` into a new root gives the string "yes" at `test/does-it-work`. |
| LoaderProperties.ReadFailsIffComplexKey | src/main/java/com/hpfxd/configurate/eoyaml/EOYamlConfigurationLoader.java:128-173 | Reading fails if and only if some mapping key anywhere in the tree is not a scalar. A failure always carries "Complex keys not allowed!". |
| LoaderProperties.EntriesFailIffComplexKey | src/main/java/com/hpfxd/configurate/eoyaml/EOYamlConfigurationLoader.java:135-149 | The first `k` entries fail to read if and only if one of them has a complex key, directly or inside its value. |
| LoaderProperties.ItemsFailIffComplexKey | src/main/java/com/hpfxd/configurate/eoyaml/EOYamlConfigurationLoader.java:160-165 | The first `k` elements fail to read if and only if one of them contains a complex key. |
| LoaderProperties.ComplexKeyReportedAtItsNode | src/main/java/com/hpfxd/configurate/eoyaml/EOYamlConfigurationLoader.java:138-142 | The first complex key of a mapping decides the failure: it names the node as filled by the entries before it, and no later entry is read. |
| LoaderProperties.ReadComment | src/main/java/com/hpfxd/configurate/eoyaml/EOYamlConfigurationLoader.java:118-126 | After a successful read, the comment is the YAML comment with "\r\n" normalised if it was present and non-empty. Otherwise the target's own comment is kept. The node is attached. |
| LoaderProperties.EntriesKeepComment | src/main/java/com/hpfxd/configurate/eoyaml/EOYamlConfigurationLoader.java:135-149 | Reading the children never changes the parent's comment and leaves the parent attached. |
| LoaderProperties.ItemsKeepComment | src/main/java/com/hpfxd/configurate/eoyaml/EOYamlConfigurationLoader.java:160-165 | The same for the elements of a sequence. |
| LoaderProperties.UncommentedChildHasNoComment | src/main/java/com/hpfxd/configurate/eoyaml/EOYamlConfigurationLoader.java:120-126 | A YAML node without a comment, or with an empty one, read into a new child leaves that child without a comment. |
| LoaderProperties.ReadMappingShape | src/main/java/com/hpfxd/configurate/eoyaml/EOYamlConfigurationLoader.java:134-150 | A non-empty mapping with distinct scalar keys gives a map with one child per entry, in order. Each child is named by its key's string and holds the value read into a new node. |
| LoaderProperties.EntriesShape | src/main/java/com/hpfxd/configurate/eoyaml/EOYamlConfigurationLoader.java:135-149 | The same after the first `k` entries: `k` children named by the first `k` keys. |
| LoaderProperties.ReadSequenceShape | src/main/java/com/hpfxd/configurate/eoyaml/EOYamlConfigurationLoader.java:158-166 | A non-empty sequence gives a list of the same length in which element `k` is value `k` read into a new node. |
| LoaderProperties.ItemsShape | src/main/java/com/hpfxd/configurate/eoyaml/EOYamlConfigurationLoader.java:159-165 | The same after the first `k` values. |
| LoaderProperties.ReadKeepsWellFormed | src/main/java/com/hpfxd/configurate/eoyaml/EOYamlConfigurationLoader.java:117-174 | A node whose maps have distinct keys keeps that property through a read. |
| LoaderProperties.EntriesKeepWellFormed | src/main/java/com/hpfxd/configurate/eoyaml/EOYamlConfigurationLoader.java:135-149 | Reading entries into a well-formed node keeps it well-formed. |
| LoaderProperties.ItemsKeepWellFormed | src/main/java/com/hpfxd/configurate/eoyaml/EOYamlConfigurationLoader.java:160-165 | Reading elements into a well-formed node keeps it well-formed. |
| LoaderProperties.KeyChildWellFormed | src/main/java/com/hpfxd/configurate/eoyaml/EOYamlConfigurationLoader.java:148 | The child `node(k)` hands out from a well-formed node is well-formed. |
| LoaderProperties.PutKeepsWellFormed | src/main/java/com/hpfxd/configurate/eoyaml/EOYamlConfigurationLoader.java:148 | Attaching a well-formed child under a key keeps the parent well-formed. |
| LoaderProperties.RoundTrip | src/main/java/com/hpfxd/configurate/eoyaml/EOYamlConfigurationLoader.java:195-239 | Take a tree of maps with distinct string keys, lists and string scalars, with comments free of "\r". Reading its `writeNode` form into a fresh node gives back the same values, keys and order at every level, and its non-empty comments. |
| LoaderProperties.FieldsRoundTrip | src/main/java/com/hpfxd/configurate/eoyaml/EOYamlConfigurationLoader.java:211-222 | The first `k` written entries, read back, give the first `k` children under their keys. |
| LoaderProperties.ItemsRoundTrip | src/main/java/com/hpfxd/configurate/eoyaml/EOYamlConfigurationLoader.java:223-231 | The first `k` written elements, read back, give the first `k` elements at the same indices. |
| LoaderProperties.WrittenEntry | src/main/java/com/hpfxd/configurate/eoyaml/EOYamlConfigurationLoader.java:214-219 | Entry `i` of a written map is key `i` as a plain scalar with child `i` written. |
| LoaderProperties.WrittenItem | src/main/java/com/hpfxd/configurate/eoyaml/EOYamlConfigurationLoader.java:226-229 | Element `i` of a written list is element `i` written. |
| LoaderProperties.CheckCanWriteExactly | src/main/java/com/hpfxd/configurate/eoyaml/EOYamlConfigurationLoader.java:91-94 | `checkCanWrite` refuses exactly a node that is not a map, not virtual and holds a value, and names that node with the message. |
| LoaderProperties.SaveDispatch | src/main/java/com/hpfxd/configurate/eoyaml/EOYamlConfigurationLoader.java:177-189 | Saving is refused exactly for a non-map, non-virtual root that holds a value. A non-map root that is virtual or holds nothing is saved as one system separator. `writeNode` is reached only for a map root, and the printer then gets a mapping. |
| Config.KeyChildPresent | src/main/java/com/hpfxd/configurate/eoyaml/EOYamlConfigurationLoader.java:148 | `node(k)` on a map with distinct keys that holds `k` hands out the child stored under `k`. |
| Config.KeyChild | src/main/java/com/hpfxd/configurate/eoyaml/EOYamlConfigurationLoader.java:148 | Definition of the child `node(k)` hands out; see `KeyChildPresent`, `KeyChildAbsent` and `PutThenGet`. |
| Config.PutKeyChild | src/main/java/com/hpfxd/configurate/eoyaml/EOYamlConfigurationLoader.java:148 | Attaching a child keeps the parent's comment, attaches the parent and makes it a map; see `PutNewKey`, `PutExistingKey` and `PutThenGet` for the fields. |
| Config.IndexChild | src/main/java/com/hpfxd/configurate/eoyaml/EOYamlConfigurationLoader.java:162 | Definition: the element at `i` of a list that long, otherwise a new detached node. |
| Config.PutIndexChild | src/main/java/com/hpfxd/configurate/eoyaml/EOYamlConfigurationLoader.java:162 | Attaching an element keeps the parent's comment, attaches the parent and makes it a list; see `PutIndexItems` for the elements. |
| Config.SetRaw | src/main/java/com/hpfxd/configurate/eoyaml/EOYamlConfigurationLoader.java:171 | Definition of `raw(v)` on a state; see `Config.ConfigNode.SetRawValue` and `ReadScalarKeepsString`. |
| Config.KeyChildAbsent | src/main/java/com/hpfxd/configurate/eoyaml/EOYamlConfigurationLoader.java:148 | `node(k)` for a key the node does not hold, or on a node that is not a map, hands out a new detached node. |
| Config.PutThenGet | src/main/java/com/hpfxd/configurate/eoyaml/EOYamlConfigurationLoader.java:148 | After child `k` is attached, `node(k)` hands it back. |
| Config.PutNewKey | src/main/java/com/hpfxd/configurate/eoyaml/EOYamlConfigurationLoader.java:148 | A new key is added last; a node that was not a map becomes a map with that one child. |
| Config.PutExistingKey | src/main/java/com/hpfxd/configurate/eoyaml/EOYamlConfigurationLoader.java:148 | Attaching under a key the map holds keeps the keys and their order. |
| Config.PutIndexItems | src/main/java/com/hpfxd/configurate/eoyaml/EOYamlConfigurationLoader.java:162 | Attaching element `i` replaces an existing element in place and otherwise appends; a node that was not a list becomes a one-element list. |
| Config.ConfigNode.SetComment | src/main/java/com/hpfxd/configurate/eoyaml/EOYamlConfigurationLoader.java:123-125 | Only the comment changes. |
| Config.ConfigNode.SetRawValue | src/main/java/com/hpfxd/configurate/eoyaml/EOYamlConfigurationLoader.java:171 | The raw value is replaced and the node is attached; the comment stays. |
| Config.ConfigNode.Node | src/main/java/com/hpfxd/configurate/eoyaml/EOYamlConfigurationLoader.java:148 | Returns a fresh handle whose state is the child `KeyChild` names. |
| Config.ConfigNode.NodeAt | src/main/java/com/hpfxd/configurate/eoyaml/EOYamlConfigurationLoader.java:162 | Returns a fresh handle whose state is the element `IndexChild` names. |
| Config.ConfigNode.PutChild | src/main/java/com/hpfxd/configurate/eoyaml/EOYamlConfigurationLoader.java:148 | The new state is `PutKeyChild` of the old one: the child read under `k` becomes visible through the parent. |
| Config.ConfigNode.PutChildAt | src/main/java/com/hpfxd/configurate/eoyaml/EOYamlConfigurationLoader.java:162 | The new state is `PutIndexChild` of the old one. |
| Yaml.Value | src/main/java/com/hpfxd/configurate/eoyaml/EOYamlConfigurationLoader.java:136 | Definition of `mapping.value(key)`: the value of the first entry with that key, or null. |
| Yaml.LookupFromFinds | src/main/java/com/hpfxd/configurate/eoyaml/EOYamlConfigurationLoader.java:136 | The lookup finds entry `i` when no earlier entry in the range has the same key. |
| Yaml.PairValueIsLookup | src/main/java/com/hpfxd/configurate/eoyaml/EOYamlConfigurationLoader.java:135-136 | In a mapping with distinct scalar keys, `value(key)` for the key of entry `i` is the value of entry `i`, so reading each entry's own value agrees with the lookup. |
| Text.NormalizeWithoutCr | src/main/java/com/hpfxd/configurate/eoyaml/EOYamlConfigurationLoader.java:123-125 | A comment without "\r" is not changed by the "\r\n" normalisation. |
| Text.ReplaceWithoutBreaks | src/main/java/com/hpfxd/configurate/eoyaml/EOYamlConfigurationLoader.java:204-208 | A comment without line breaks is not changed by the separator rewrite. |
| Text.NormalizeUndoesReplace | src/main/java/com/hpfxd/configurate/eoyaml/EOYamlConfigurationLoader.java:207 | For a comment without "\r", normalising its rewritten form gives the comment back, with either system separator. |
| Text.NormalizeCrlf | src/main/java/com/hpfxd/configurate/eoyaml/EOYamlConfigurationLoader.java:123-125 | The result is never longer and is empty only for empty input; see `NormalizeWithoutCr` and `NormalizeUndoesReplace`. |
| Text.ReplaceLineBreaks | src/main/java/com/hpfxd/configurate/eoyaml/EOYamlConfigurationLoader.java:207 | A non-empty input gives a non-empty result; see `ReplaceWithoutBreaks` and `NormalizeUndoesReplace`. |
| Text.TrimStart | src/main/java/com/hpfxd/configurate/eoyaml/YamlCommentHandler.java:31 | The result is a suffix of the input, everything dropped is at most U+0020, and the first character kept is not. |
| Text.TrimEnd | src/main/java/com/hpfxd/configurate/eoyaml/YamlCommentHandler.java:31 | The result is a prefix of the input, everything dropped is at most U+0020, and the last character kept is not. |
| Text.JavaTrim | src/main/java/com/hpfxd/configurate/eoyaml/YamlCommentHandler.java:31 | Definition: `TrimEnd` after `TrimStart`; see those and `TrimKeepsFirst`. |
| Text.TrimKeepsFirst | src/main/java/com/hpfxd/configurate/eoyaml/YamlCommentHandler.java:31 | A string whose first character is above U+0020 keeps it in front after trimming. |
| Text.IndexOf | src/main/java/com/hpfxd/configurate/eoyaml/YamlCommentHandler.java:32 | The position of the first occurrence of the character. |
| Text.DropLeadingSpace | src/main/java/com/hpfxd/configurate/eoyaml/YamlCommentHandler.java:33-35 | The result is the input with at most its first character removed, and a character is removed exactly when the input starts with a space. |
| CommentHandler.ReadLine | src/main/java/com/hpfxd/configurate/eoyaml/YamlCommentHandler.java:24 | There is no line exactly at the end of the input. A line is a prefix of the input without line breaks that runs up to the first line break or to the end of the input, and reading it consumes input. |
| CommentHandler.LineEnd | src/main/java/com/hpfxd/configurate/eoyaml/YamlCommentHandler.java:24 | The position of the first "\n" or "\r", or the length when there is none. |
| CommentHandler.BeginsWithPrefix | src/main/java/com/hpfxd/configurate/eoyaml/YamlCommentHandler.java:62-69 | The peek succeeds if and only if the input is non-empty and its first character is `#`. |
| CommentHandler.CommentLineHasPrefix | src/main/java/com/hpfxd/configurate/eoyaml/YamlCommentHandler.java:31-32 | A line whose trimmed form starts with `#` contains `#`, so the `indexOf` is defined. |
| CommentHandler.IsCommentLine | src/main/java/com/hpfxd/configurate/eoyaml/YamlCommentHandler.java:31 | Definition of the test `line.trim().startsWith("#")`; see `CommentLineStep`. |
| CommentHandler.CommentText | src/main/java/com/hpfxd/configurate/eoyaml/YamlCommentHandler.java:32-35 | Definition: what follows the first `#`, minus at most one space; see `CommentLineStep` and `CommentLineRecoverable`. |
| CommentHandler.AppendLine | src/main/java/com/hpfxd/configurate/eoyaml/YamlCommentHandler.java:36-39 | Definition; see `CommentLineStep`. |
| CommentHandler.NonEmpty | src/main/java/com/hpfxd/configurate/eoyaml/YamlCommentHandler.java:47 | Definition; see `EndOfInputEndsHeader` and `ScanNeverEmpty`. |
| CommentHandler.Scan | src/main/java/com/hpfxd/configurate/eoyaml/YamlCommentHandler.java:21-47 | Definition of the reading loop; each branch is stated by a lemma of `CommentHandlerProperties`. |
| CommentHandler.Header | src/main/java/com/hpfxd/configurate/eoyaml/YamlCommentHandler.java:17-48 | Definition of `extractHeader`; see `ExtractHeader`, `NoPrefixNoHeader` and `HeaderRoundTrip`. |
| CommentHandler.ScanNeverEmpty | src/main/java/com/hpfxd/configurate/eoyaml/YamlCommentHandler.java:47 | The reading loop never yields the empty string. |
| CommentHandler.ExtractHeader | src/main/java/com/hpfxd/configurate/eoyaml/YamlCommentHandler.java:17-48 | The loop returns what `Header` specifies. That is null when the input is empty or does not start with `#`, and never "". |
| CommentHandler.ToComment | src/main/java/com/hpfxd/configurate/eoyaml/YamlCommentHandler.java:51-59 | `n` lines give `n + 1`: line `i` is the comment line for input line `i`, and the last is `---`. |
| CommentHandler.CommentLine | src/main/java/com/hpfxd/configurate/eoyaml/YamlCommentHandler.java:53-58 | Every written line starts with `#`; see `CommentLineRecoverable`. |
| CommentHandlerProperties.ReadLineOf | src/main/java/com/hpfxd/configurate/eoyaml/YamlCommentHandler.java:24 | A line followed by either system separator is read as that line, leaving exactly what follows. |
| CommentHandlerProperties.ReadLineOfCr | src/main/java/com/hpfxd/configurate/eoyaml/YamlCommentHandler.java:24 | A lone "\r" not followed by "\n" also ends a line, and what follows it is left unread. |
| CommentHandlerProperties.ReadLastLine | src/main/java/com/hpfxd/configurate/eoyaml/YamlCommentHandler.java:24 | A last line without a terminator is still read, and nothing is left. |
| CommentHandlerProperties.NoPrefixNoHeader | src/main/java/com/hpfxd/configurate/eoyaml/YamlCommentHandler.java:18-20 | Without a leading `#` there is no header. |
| CommentHandlerProperties.FirstLineTakenVerbatim | src/main/java/com/hpfxd/configurate/eoyaml/YamlCommentHandler.java:25-30 | After the peek, the rest of the first line, minus at most one leading space, starts the header. It needs no `#` of its own. |
| CommentHandlerProperties.CommentLineStep | src/main/java/com/hpfxd/configurate/eoyaml/YamlCommentHandler.java:31-39 | A later line whose trim starts with `#` adds its text after the first `#`, minus one leading space. The text is joined with "\n" only when text was accumulated. |
| CommentHandlerProperties.TerminatorEndsHeader | src/main/java/com/hpfxd/configurate/eoyaml/YamlCommentHandler.java:40-41 | A blank line or `---` ends the header with the text so far, whatever follows. |
| CommentHandlerProperties.EmptyLineEndsHeader | src/main/java/com/hpfxd/configurate/eoyaml/YamlCommentHandler.java:40-41 | An empty line is a terminator when the blank test accepts "". |
| CommentHandlerProperties.OtherLineAborts | src/main/java/com/hpfxd/configurate/eoyaml/YamlCommentHandler.java:42-43 | Any other later line makes the result null and discards what was accumulated. |
| CommentHandlerProperties.EndOfInputEndsHeader | src/main/java/com/hpfxd/configurate/eoyaml/YamlCommentHandler.java:47 | At the end of the input, the result is the accumulated text if there is any, and null otherwise. |
| CommentHandlerProperties.CommentLineRecoverable | src/main/java/com/hpfxd/configurate/eoyaml/YamlCommentHandler.java:53-58 | The comment line written for `s` is read as a comment line whose text is `s` minus at most one leading space. |
| CommentHandlerProperties.ToCommentCons | src/main/java/com/hpfxd/configurate/eoyaml/YamlCommentHandler.java:51-59 | `toComment` of a non-empty list is the first comment line followed by `toComment` of the rest. |
| CommentHandlerProperties.WrittenLineStep | src/main/java/com/hpfxd/configurate/eoyaml/YamlCommentHandler.java:31-39 | Reading a written comment line after the first adds "\n" and its text. |
| CommentHandlerProperties.WrittenMarkerEnds | src/main/java/com/hpfxd/configurate/eoyaml/YamlCommentHandler.java:40-41 | The written `---` marker ends the header with the text so far. |
| CommentHandlerProperties.ScanCommentBlock | src/main/java/com/hpfxd/configurate/eoyaml/YamlCommentHandler.java:24-45 | Reading the later written comment lines and the marker appends each line's text in order, joined by "\n". |
| CommentHandlerProperties.WrittenFirstLine | src/main/java/com/hpfxd/configurate/eoyaml/YamlCommentHandler.java:18-30 | The peek takes the `#` of the first written line. The rest of that line, minus one leading space, starts the header. |
| CommentHandlerProperties.HeaderRoundTrip | src/main/java/com/hpfxd/configurate/eoyaml/YamlCommentHandler.java:17-59 | Take header lines without line breaks whose first line keeps some text. Writing them with `toComment`, followed by any body, reads back as the lines minus one leading space each, joined by "\n". |
| CommentHandlerProperties.PlainHeaderRoundTrip | src/main/java/com/hpfxd/configurate/eoyaml/YamlCommentHandler.java:17-59 | For non-empty lines without line breaks, none starting with a space, the header read back is exactly the lines joined by "\n". |
| CommentHandlerProperties.EmptyHeaderGivesNone | src/main/java/com/hpfxd/configurate/eoyaml/YamlCommentHandler.java:17-20 | An empty header list is written as `---` alone. It does not begin with `#`, so nothing is read back. |

## Left out

- The eo-yaml parser and printer (`readYamlMapping`, the printer in `saveInternal`, the builders' internals) are external; YAML trees are a datatype and the builders its constructors.
- `loadInternal`'s joining of reader lines, the actual writing to the `Writer`, and the wrapping of `IOException`s are I/O plumbing; saving returns what would be written (`Output`).
- The `Builder`, the `guessIndentation` option, `NATIVE_TYPES` and `createNode` are configuration wiring.
- Configurate's node internals (path resolution, type coercion, default merging, the `CommentedConfigurationNodeIntermediary` test) are reduced to the `Tree` value; every node is taken to be commented.
- Aliasing of child handles is not modelled: `node(k)` hands out a fresh object holding the child's state. The model commits a child to its parent once, with `PutChild`, after the child's read succeeds. The framework attaches it at its first write (`comment(...)` or `raw(...)`), which can come before its own children are read. The two differ only in the partly filled state on failure, which is left out below.
- Loader.ReadEntries: reads the value of entry `i` from entry `i` itself, where the code asks `mapping.value(key)`. The two agree when the keys are distinct (`Yaml.PairValueIsLookup`). A YAML mapping is taken to have distinct keys, since eo-yaml's `keys()` is a set with one `value(key)` per key; a mapping whose entries repeat a key is not modelled.
- Loader.ReadNode: on failure the partly filled node is not specified, because the framework leaves it unspecified and the caller discards it.
- Raw values other than strings, maps and lists, and keys other than strings, are not modelled; `String.valueOf` is the identity on strings and "null" for an absent value.
- `Strings.isBlank` is a parameter, because its code is not part of this model.
- Which comment in a document attaches to which node is decided by the eo-yaml parser and is not modelled.
- The framework's use of the handler (the reader's mark/reset around `extractHeader`, splitting the header into lines, running `checkCanWrite` before `saveInternal`) is modelled only as `Save`'s order: check first, then save.
- LoaderProperties.ReadSequenceShape: stated for a target that is not a list yet (a fresh node). Reading into an existing list replaces its first elements in place and keeps any elements beyond the sequence's length. `Read` specifies that case, but no separate lemma states it.
- LoaderProperties.ReadMappingShape: stated for a target that is not a map yet (a fresh node); reading into an existing map merges, which `Read` specifies but no separate lemma states.
- CommentHandlerProperties.HeaderRoundTrip: requires the first header line to keep some text, because an empty first line adds nothing and the next line is then joined without a separator; a line starting with a space loses that space, as `toComment` writes only one space after `#`.
