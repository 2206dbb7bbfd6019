# deep_serialize, modelled in Dafny

The anstomlog Ansible callback prints each task result as indented,
line-oriented text. It does so with `deep_serialize(data, indent)`, a
recursive pretty-printer over a tree of scalars, lists and dicts, steered
by two tables:

- `PREFERED_FIELDS` lists the fields shown first, in a fixed order.
- `DELETABLE_FIELDS` lists the fields deleted before the rest of a dict is
  shown.

This project models that function and the two tables, and proves the
layout the function produces and the state it leaves the caller's dict in.

- `Values` (values.dfy) holds the result tree and the two tables. It also
  holds the steps a dict goes through:
  - the `no_log` stand-in (`Working`);
  - the preferred pass (`PreferredPart`);
  - the deletions (`Without`);
  - the remaining pass (`RemainingPart`);
  - the caller's post-state (`Pruned`).
- `Text` (text.dfy) models Python's `splitlines`, `join` and `strip`, and
  the run of spaces used as padding.
- `Rendering` (render.dfy) holds `Render(v, indent)`, the text the function
  returns, as a recursive function. It also holds the layout lemmas about
  that text.
- `Serialize` (serialize.dfy) is the function as written: a recursive
  method whose loops append to an output string. One loop deletes keys
  from the dict's entry sequence. Each method is proved to build exactly
  `Render`'s text and to leave the caller holding `Pruned(data)`.
- `Examples` (examples.dfy) holds the expected outputs of the module's own
  test cases, as lemmas about `Render`.

A dict is a sequence of `(key, value)` entries in insertion order. A
scalar carries the text `str()` gives for it and its truthiness. Keys are
distinct wherever a property depends on it (`DistinctKeys`).

`deep_serialize` is not pure. Its deletion loop
(callbacks/anstomlog.py:67-69) deletes from the caller's own dict and from
every nested dict it walks, unless that dict was replaced by the censored
stand-in. Rendering the same dict twice can therefore give different text.
The model states this:

- `Serialize.DeepSerialize` returns `after == Pruned(data)`, the caller's
  value once the call returns.
- `Values.SecondPassKeys` and `Examples.SecondRendering` show that a
  second rendering of the same dict loses the preferred fields the first
  rendering led with.

## Model

| member | source | states |
|---|---|---|
| Values.Lookup | callbacks/anstomlog.py:59-60 | a value is found exactly when the key is among the dict's keys, it is one the dict holds, and with distinct keys it is the only one |
| Values.Without | callbacks/anstomlog.py:67-69 | an entry survives the deletions exactly when it was in the dict and its key is not deleted; nothing is added |
| Values.WithoutOneMore | callbacks/anstomlog.py:67-69 | deleting the keys one at a time, in the table's order, ends as deleting the whole table |
| Values.WithoutAbsent | callbacks/anstomlog.py:68-69 | deleting a key the dict does not hold changes nothing |
| Values.WithoutConcat | callbacks/anstomlog.py:67-73 | the deletions keep the survivors in dict order |
| Values.WithoutDistinct | callbacks/anstomlog.py:67-69 | deletion keeps keys distinct |
| Values.WithoutNone | callbacks/anstomlog.py:67-69 | a dict holding none of the deleted keys is left as it is |
| Values.KeysWithout | callbacks/anstomlog.py:67-69 | a key survives exactly when the dict held it and it is not deleted |
| Values.Working | callbacks/anstomlog.py:51-54 | the dict rendering goes on with holds only the caller's own entries or the scalar stand-in |
| Values.Present | callbacks/anstomlog.py:58-59 | the preferred keys looked for are exactly those that are both preferred and present |
| Values.PreferredPart | callbacks/anstomlog.py:58-60 | the first pass shows each preferred key the dict holds, in the table's order, with the value the dict holds for it |
| Values.Emitted | callbacks/anstomlog.py:58-73 | every shown field is a scalar of the stand-in or an entry of the caller's dict |
| Values.PreferredFieldsFirst | callbacks/anstomlog.py:58-73 | the preferred keys present come first, in the table's order; the survivors follow in dict order; none of them is preferred |
| Values.EmittedKeys | callbacks/anstomlog.py:24-29 | a key is shown exactly when the dict holds it and it is preferred or not deletable, so `invocation` and the other bookkeeping fields never show |
| Values.EmittedKeysSplit | callbacks/anstomlog.py:58-73 | the shown keys are the preferred keys present followed by the survivors' keys |
| Values.FieldKeysConcat | callbacks/anstomlog.py:58-73 | the keys of two passes together are the first pass's keys then the second's |
| Values.PresentDistinct | callbacks/anstomlog.py:58-59 | the preferred pass names no key twice |
| Values.DistinctConcat | callbacks/anstomlog.py:58-73 | two key lists without repeats and without a common key make a list without repeats |
| Values.PreferredAreDeletable | callbacks/anstomlog.py:24-29 | every preferred field is in the deletion table |
| Values.SurvivorKeys | callbacks/anstomlog.py:67-71 | no key the remaining pass shows is deletable |
| Values.PreferredNotSurvivors | callbacks/anstomlog.py:58-71 | no key the preferred pass shows survives to the remaining pass |
| Values.NoFieldTwice | callbacks/anstomlog.py:58-73 | in a dict with distinct keys, no key is shown twice |
| Values.PreferredPartIgnoresOrder | callbacks/anstomlog.py:58-60 | the preferred pass depends on the dict's contents, not on insertion order |
| Values.LookupIgnoresOrder | callbacks/anstomlog.py:59-60 | looking up a key in a dict with distinct keys does not depend on insertion order |
| Values.PrunedIdempotent | callbacks/anstomlog.py:67-69 | the caller's post-state is stable: walking it again deletes nothing more, at any depth |
| Values.PrunedMapStable | callbacks/anstomlog.py:67-73 | a pruned dict whose values are stable under pruning is stable itself |
| Values.PrunedKeysClean | callbacks/anstomlog.py:67-69 | an uncensored dict, once pruned, holds no deletable key and no `no_log` marker |
| Values.SecondPassKeys | callbacks/anstomlog.py:67-69 | rendering an uncensored dict again after it was pruned shows exactly its non-deletable keys, so the preferred fields are gone |
| Text.Split | callbacks/anstomlog.py:42 | splitting gives at least one piece and no piece holds a line break |
| Text.SplitLines | callbacks/anstomlog.py:42 | no line holds a line break |
| Text.TrimStart | callbacks/anstomlog.py:65 | leading trim leaves a suffix, removes only whitespace, and starts with a non-space |
| Text.TrimEnd | callbacks/anstomlog.py:65 | trailing trim leaves a prefix, removes only whitespace, and ends with a non-space |
| Text.Reindent | callbacks/anstomlog.py:63-64 | indenting keeps the number of lines |
| Text.Realign | callbacks/anstomlog.py:40-42 | the realigned text is no shorter than the text |
| Text.RealignEmptyPad | callbacks/anstomlog.py:40-42 | with an empty pad the text is unchanged |
| Text.RealignNoNewline | callbacks/anstomlog.py:40-42 | a one-line text is left as it is |
| Text.RealignFirst | callbacks/anstomlog.py:40-42 | realigning keeps the first character when it is not a line break |
| Text.RealignLast | callbacks/anstomlog.py:40-42 | realigning keeps the last character when it is not a line break |
| Text.JoinSplit | callbacks/anstomlog.py:40-42 | joining the pieces with a line break and a pad puts the pad after every line break |
| Text.SplitRoundTrip | callbacks/anstomlog.py:42 | joining the pieces with line breaks gives the text back |
| Text.SplitLastEmpty | callbacks/anstomlog.py:42 | the last piece is empty exactly when the text is empty or ends in a line break |
| Text.SplitPiece | callbacks/anstomlog.py:42 | splitting a line and a line break before more text gives the line, then the pieces of the rest |
| Text.SplitNoNewline | callbacks/anstomlog.py:42 | a text without line breaks is one piece |
| Text.JoinThenSplit | callbacks/anstomlog.py:42 | splitting lines joined with line breaks gives the lines back |
| Text.LinesRoundTrip | callbacks/anstomlog.py:42 | splitting into lines undoes joining with line breaks, when the last line is not empty |
| Text.SplitLinesRoundTrip | callbacks/anstomlog.py:42 | joining a text's lines gives the text back, less one trailing line break |
| Text.JoinDropLast | callbacks/anstomlog.py:42 | joining pieces whose last is empty ends in a line break |
| Text.JoinLinesRealigns | callbacks/anstomlog.py:40-42 | for a text not ending in a line break, joining its lines with a line break and a pad is the text with the pad after each line break |
| Text.JoinReindent | callbacks/anstomlog.py:63-64 | joining indented lines is the pad followed by the lines joined with a line break and the pad |
| Text.TrimLeadingSpaces | callbacks/anstomlog.py:65 | trimming removes padding put in front of a text that starts with a non-space |
| Text.StripReindented | callbacks/anstomlog.py:62-65 | for a non-empty text with no whitespace at either end, indenting every line then stripping keeps the first line in place and pushes each later line right |
| Text.ReindentedJoin | callbacks/anstomlog.py:63-64 | for a non-empty text not ending in a line break, indenting its lines and joining them is the pad followed by the realigned text |
| Text.StripPadded | callbacks/anstomlog.py:65 | for a non-empty text with no whitespace at either end, stripping the padded realigned text leaves the realigned text |
| Rendering.NeverBlank | callbacks/anstomlog.py:77-81 | no rendering is empty; a scalar shows its text, or `""` when that text is empty |
| Rendering.Delimiters | callbacks/anstomlog.py:34-75 | a list's text starts with `[` and ends with `]`; a dict's starts with `{` and ends with `}` |
| Rendering.ContainerEdges | callbacks/anstomlog.py:34-75 | the text of a list or dict has no whitespace at either end |
| Rendering.ListLayout | callbacks/anstomlog.py:36-49 | an empty list is `[]`; a longer list is `[ `, one line per item in order, a line break, the padding and ` ]` |
| Rendering.ItemsTextAppend | callbacks/anstomlog.py:46-48 | the item lines follow the items' order |
| Rendering.SingleItemList | callbacks/anstomlog.py:39-42 | a one-item list whose item's level-0 text does not end in a line break is `[ `, that text with the padding after each line break, then ` ]`; at level 0 that is the item's text as it stands |
| Rendering.MapLayout | callbacks/anstomlog.py:55-75 | a dict is `{`, a line break, the preferred fields' lines, the survivors' lines and the padded `}` |
| Rendering.FieldsTextAppend | callbacks/anstomlog.py:58-73 | the lines of two field runs are the first run's lines then the second's |
| Rendering.FieldsTextAnyOwner | callbacks/anstomlog.py:58-73 | a field's line does not depend on which dict is being rendered |
| Rendering.FieldsTextEmpty | callbacks/anstomlog.py:61-73 | the field lines are empty exactly when there is no field |
| Rendering.EmittedText | callbacks/anstomlog.py:58-73 | a dict's body is the preferred lines followed by the remaining lines |
| Rendering.PlainMap | callbacks/anstomlog.py:71-75 | a dict with no deletable key shows each entry as it stands, in dict order, one level deeper |
| Rendering.PlainFields | callbacks/anstomlog.py:71-73 | the remaining lines of such a dict are its plain lines |
| Rendering.PlainOwned | callbacks/anstomlog.py:71-73 | each remaining field is an entry of the dict |
| Rendering.CensoredLayout | callbacks/anstomlog.py:51-56 | a dict with a truthy `_ansible_no_log` shows only the `censored` line and the fixed message |
| Rendering.CensoredText | callbacks/anstomlog.py:51-73 | a censored dict's body is the one `censored` line |
| Rendering.CensoredEmitted | callbacks/anstomlog.py:51-73 | a censored dict shows exactly the `censored` field |
| Rendering.CensoredFields | callbacks/anstomlog.py:51-69 | the stand-in holds no preferred field and loses nothing to the deletions |
| Rendering.CensorHidesPayload | callbacks/anstomlog.py:51-54 | any two censored dicts show the same text, whatever else they hold |
| Rendering.PresentNone | callbacks/anstomlog.py:58-59 | a dict holding no preferred key gives an empty preferred pass |
| Rendering.EmptyBody | callbacks/anstomlog.py:55-75 | a dict shows as bare braces exactly when every key it holds is deletable and not preferred |
| Rendering.BracesEmpty | callbacks/anstomlog.py:56-75 | the braces are bare exactly when the body is empty |
| Rendering.NothingEmitted | callbacks/anstomlog.py:58-73 | no field is shown exactly when every key is deletable and not preferred |
| Rendering.PreferredBlockIgnoresOrder | callbacks/anstomlog.py:58-65 | the preferred lines of two dicts with the same contents are the same text |
| Rendering.PreferredFieldAligned | callbacks/anstomlog.py:61-65 | a preferred field whose text has no edge whitespace is its head, then its text with every later line pushed under the first |
| Serialize.DeepSerialize | callbacks/anstomlog.py:31-82 | the method returns exactly `Render`'s text and leaves the caller holding the pruned value |
| Serialize.SerializeList | callbacks/anstomlog.py:34-49 | the list branch returns the list's text and the list of pruned items |
| Serialize.ListItems | callbacks/anstomlog.py:44-48 | the loop appends exactly the item lines, in order, and collects each item's post-state |
| Serialize.SerializeMap | callbacks/anstomlog.py:50-75 | the dict branch returns the dict's text; the caller's dict loses its deletable fields unless it was censored |
| Serialize.PreferredPass | callbacks/anstomlog.py:58-65 | the loop appends exactly the preferred pass's lines |
| Serialize.PreferredEntry | callbacks/anstomlog.py:60-65 | a preferred field's line is its head and the indented, stripped rendering of its value |
| Serialize.DropDeletable | callbacks/anstomlog.py:67-69 | the deletion loop leaves exactly the entries whose keys are not deletable, in order |
| Serialize.RemainingPass | callbacks/anstomlog.py:71-73 | the loop appends exactly the survivors' lines and collects each survivor's post-state |
| Serialize.RemainingEntry | callbacks/anstomlog.py:72-73 | a surviving field's line shows its value one level deeper |
| Examples.SingleItemArray | callbacks/anstomlog.py:98-101 | `["false"]` gives `[ false ]` |
| Examples.SingleEmptyItemArray | callbacks/anstomlog.py:103-106 | `[""]` gives `[ "" ]` |
| Examples.Issue4 | callbacks/anstomlog.py:108-111 | `["ÉLÉGANT"]` gives `[ ÉLÉGANT ]` |
| Examples.EmptyArray | callbacks/anstomlog.py:113-116 | `[]` gives `[]` |
| Examples.SimpleHash | callbacks/anstomlog.py:118-121 | two ordinary keys show in dict order |
| Examples.HashArray | callbacks/anstomlog.py:123-126 | a one-item list under a key shows inline |
| Examples.HashArray2 | callbacks/anstomlog.py:128-136 | a two-item list under a key shows one line per item, one level deeper |
| Examples.FavoriteHash | callbacks/anstomlog.py:138-141 | `rc` shows before `cmd` though it was inserted after it |
| Examples.FavoriteParts | callbacks/anstomlog.py:138-141 | that dict's preferred pass holds `rc` alone and its remaining pass `cmd` alone |
| Examples.Nested | callbacks/anstomlog.py:143-153 | a dict inside a dict shows its lines one level deeper |
| Examples.NestedInner | callbacks/anstomlog.py:143-153 | the inner dict of that case, at level 1 |
| Examples.MultilineSingle | callbacks/anstomlog.py:155-164 | a two-item list as the only item of a list keeps its own line layout |
| Examples.EmptyArrayNoPadding | callbacks/anstomlog.py:166-173 | one-item lists add no padding of their own at level 0 |
| Examples.FooList | callbacks/anstomlog.py:166-173 | the inner one-item list of that case |
| Examples.FooDict | callbacks/anstomlog.py:166-173 | the dict of that case, with an empty list as its value |
| Examples.Inline | callbacks/anstomlog.py:39-42 | a list or dict as the only item of a list at level 0 sits inline between the brackets |
| Examples.HiddenFields | callbacks/anstomlog.py:175-181 | a dict holding only `_ansible_verbose_always` shows as bare braces |
| Examples.SecondRendering | callbacks/anstomlog.py:67-69 | after a first rendering of the favorite-hash dict, that dict holds `cmd` alone and a second rendering differs from the first |
| Examples.FavoritePruned | callbacks/anstomlog.py:67-69 | the favorite-hash dict after a first rendering |
| Examples.CmdOnly | callbacks/anstomlog.py:71-75 | what the second rendering of that dict shows |

## Left out

- The `CallbackModule` class is not part of this model: Ansible event handling, terminal output, colours and the play recap.
- `_get_duration` is not part of this model: it reads the wall clock and formats floats.
- `_command_generic_msg`, `_host_string` and `_changed_or_not` are not part of this model: they are format wrappers over Ansible's result objects.
- The import fallbacks, the Python 2 default-encoding change and the unittest runner are left out. The test bodies appear only as expected values in `Examples`.
- `str()` of arbitrary objects is not modelled. A scalar carries its text and its truthiness as given; for example, `12` is the scalar with text `12`.
- Text.SplitLines: breaks lines only at '\n'. Python's `splitlines` also breaks at '\r', '\r\n', the ASCII characters \x0b, \x0c, \x1c, \x1d and \x1e, and the Unicode line separators.
- Text.Strip: trims only six characters: space, '\t', '\n', '\r', \x0b and \x0c. Python's `strip` also trims \x1c to \x1f and the Unicode whitespace.
- Aliasing is not modelled. A dict reachable twice in the tree, or shared with the caller elsewhere, is treated as separate values. The deletions are modelled as the caller's post-state `Pruned`, not as updates through shared references.
- Only string keys are modelled. A dict's keys are assumed distinct where a property needs it, as Python guarantees.
- The censored message is the one string the two adjacent literals in the source make.
