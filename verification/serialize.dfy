/**
 `deep_serialize` as the loops it is written with: an output string grown
 piece by piece, and the dict's own entries reassigned as each deletable key
 is deleted. Each method is proved to build exactly the text `Render`
 specifies and to leave the caller's value as `Pruned` describes.
 */
module Serialize {
  import opened Text
  import opened Values
  import opened Rendering

  /**
   `deep_serialize(data, indent)`. Returns the text and the value the
   caller holds afterwards (the dicts the walk visited, less their
   deletable fields).
   */
  method DeepSerialize(data: Value, indent: nat) returns (output: string, after: Value)
    ensures output == Render(data, indent)
    ensures after == Pruned(data)
    decreases Kind(data), data
  {
    match data
    case Scalar(text, _) =>
      if |text| == 0 {
        output := "\"\"";
      } else {
        output := text;
      }
      after := data;
    case List(items) =>
      output, after := SerializeList(items, indent);
    case Map(entries) =>
      output, after := SerializeMap(entries, indent);
  }

  /** The list branch: `[]`, an inline single item, or one `- item` line per item. */
  method SerializeList(items: seq<Value>, indent: nat) returns (output: string, after: Value)
    ensures output == Render(List(items), indent)
    ensures after == Pruned(List(items))
    decreases 1, items
  {
    var padding := Pad(indent);
    if |items| == 0 {
      return "[]", List(items);
    }
    output := "[ ";
    var done: seq<Value>;
    if |items| == 1 {
      var text, item := DeepSerialize(items[0], 0);
      output := output + Join("\n" + padding, SplitLines(text)) + " ]";
      done := [item];
      SingleText(items, indent, text);
    } else {
      var before := output;
      output, done := ListItems(items, indent, output);
      output := output + "\n" + padding + " ]";
      ManyText(items, indent, before, ItemsText(items, indent));
    }
    after := List(done);
    PrunedItems(items, done);
  }

  /**
   The loop over a list of two or more items: one line per item appended to
   the output. Also returns the items as their renderings leave them.
   */
  method ListItems(items: seq<Value>, indent: nat, output: string) returns (out: string, done: seq<Value>)
    ensures out == output + ItemsText(items, indent)
    ensures |done| == |items| && forall j :: 0 <= j < |items| ==> done[j] == Pruned(items[j])
    decreases 1, items, 0
  {
    var listPadding := Pad(indent + 1);
    out := output;
    done := [];
    for i := 0 to |items|
      invariant out == output + ItemsText(items[..i], indent)
      invariant |done| == i && forall j :: 0 <= j < i ==> done[j] == Pruned(items[j])
    {
      var text, item := DeepSerialize(items[i], indent);
      var line := "\n" + listPadding + "- " + text;
      ItemsStep(items, i, indent, text);
      Regroup(output, ItemsText(items[..i], indent), line);
      out := out + line;
      done := done + [item];
    }
    assert items[..|items|] == items;
  }

  lemma ItemsStep(items: seq<Value>, i: nat, indent: nat, text: string)
    requires i < |items| && text == Render(items[i], indent)
    ensures ItemsText(items[..i + 1], indent) == ItemsText(items[..i], indent) + ("\n" + Pad(indent + 1) + "- " + text)
  {
    assert items[..i + 1][..i] == items[..i];
  }

  lemma SingleText(items: seq<Value>, indent: nat, text: string)
    requires |items| == 1 && text == Render(items[0], 0)
    ensures Render(List(items), indent) == "[ " + Join("\n" + Pad(indent), SplitLines(text)) + " ]"
  {
  }

  lemma ManyText(items: seq<Value>, indent: nat, open: string, body: string)
    requires |items| >= 2 && open == "[ " && body == ItemsText(items, indent)
    ensures Render(List(items), indent) == open + body + "\n" + Pad(indent) + " ]"
  {
  }

  lemma PrunedItems(items: seq<Value>, done: seq<Value>)
    requires |done| == |items| && forall j :: 0 <= j < |items| ==> done[j] == Pruned(items[j])
    ensures Pruned(List(items)) == List(done)
  {
  }

  /**
   The dict branch: the `no_log` substitution, the preferred pass, the
   deletions, the remaining pass and the closing brace.
   */
  method SerializeMap(entries: seq<Entry>, indent: nat) returns (output: string, after: Value)
    ensures output == Render(Map(entries), indent)
    ensures after == Pruned(Map(entries))
    decreases 1, entries
  {
    var data := entries;
    var marker := Lookup(data, NoLogField);
    var censored := marker.Some? && Truthy(marker.value);
    if censored {
      data := CensoredEntries;
    }
    assert data == Working(entries);
    output := "{\n";
    output := PreferredPass(entries, data, indent, output);
    ghost var x := FieldsText(entries, PreferredPart(data, PreferredFields), indent);
    data := DropDeletable(data);
    var kept;
    output, kept := RemainingPass(entries, data, indent, output);
    ghost var y := FieldsText(entries, RemainingPart(data), indent);
    output := output + Pad(indent) + "}";
    EmittedText(entries, indent);
    RenderMapText(entries, indent, x, y);
    Regroup("{\n", x, y);
    if censored {
      after := Map(entries);
    } else {
      after := Map(kept);
      PrunedEntries(entries, kept);
    }
  }

  lemma PrunedEntries(entries: seq<Entry>, kept: seq<Entry>)
    requires !Censors(entries)
    requires var rest := Without(entries, DeletableFields);
      |kept| == |rest| && forall j :: 0 <= j < |rest| ==> kept[j] == (rest[j].0, Pruned(rest[j].1))
    ensures Pruned(Map(entries)) == Map(kept)
  {
  }

  /**
   The preferred pass: a `- key: value` line for each
   preferred key `data` holds, the value's later lines pushed under its
   first column. `entries` is the dict being rendered; `data` holds its
   entries or scalars.
   */
  method PreferredPass(entries: seq<Entry>, data: seq<Entry>, indent: nat, output: string)
    returns (out: string)
    requires forall e :: e in data ==> e.1.Scalar? || e in entries
    ensures forall f :: f in PreferredPart(data, PreferredFields) ==> f.value.Scalar? || (f.key, f.value) in entries
    ensures out == output + FieldsText(entries, PreferredPart(data, PreferredFields), indent)
    decreases 1, entries, 1
  {
    out := output;
    for i := 0 to |PreferredFields|
      invariant forall f :: f in PreferredPart(data, PreferredFields[..i]) ==> (f.key, f.value) in data
      invariant out == output + FieldsText(entries, PreferredPart(data, PreferredFields[..i]), indent)
    {
      var key := PreferredFields[i];
      PreferredStep(data, i);
      if key in Keys(data) {
        var value := Lookup(data, key).value;
        var line := PreferredEntry(entries, key, value, indent);
        Extend(entries, PreferredPart(data, PreferredFields[..i]), Field(key, value, true), indent, output, line);
        out := out + line;
      }
    }
    assert PreferredFields[..|PreferredFields|] == PreferredFields;
  }

  /**
   The line of a preferred field: its head, then the value rendered at the
   dict's level with every line indented by the head's width, the whole
   stripped, and a newline.
   */
  method PreferredEntry(entries: seq<Entry>, key: string, value: Value, indent: nat) returns (line: string)
    requires value.Scalar? || (key, value) in entries
    ensures line == FieldLine(entries, Field(key, value, true), indent)
    decreases 1, entries, 0
  {
    assert !value.Scalar? ==> value < (key, value);
    var prefix := Pad(indent + 1) + "- " + key + ": ";
    var text, _ := DeepSerialize(value, indent);
    line := prefix + Strip(Join("\n", Reindent(|prefix|, SplitLines(text)))) + "\n";
  }

  lemma PreferredStep(data: seq<Entry>, i: nat)
    requires i < |PreferredFields|
    ensures var key := PreferredFields[i];
      var before := PreferredPart(data, PreferredFields[..i]);
      PreferredPart(data, PreferredFields[..i + 1])
        == if key in Keys(data) then before + [Field(key, Lookup(data, key).value, true)] else before
  {
    assert PreferredFields[..i + 1][..i] == PreferredFields[..i];
  }

  /** One more field: its line goes at the end of the output. */
  lemma Extend(entries: seq<Entry>, before: seq<Field>, f: Field, indent: nat, output: string, line: string)
    requires forall g :: g in before ==> g.value.Scalar? || (g.key, g.value) in entries
    requires f.value.Scalar? || (f.key, f.value) in entries
    requires line == FieldLine(entries, f, indent)
    ensures forall g :: g in before + [f] ==> g.value.Scalar? || (g.key, g.value) in entries
    ensures output + FieldsText(entries, before + [f], indent) == output + FieldsText(entries, before, indent) + line
  {
    FieldsTextSnoc(entries, before, f, indent);
    Regroup(output, FieldsText(entries, before, indent), line);
  }

  /** The deletion loop: each deletable key the dict holds is deleted, in the table's order. */
  method DropDeletable(data: seq<Entry>) returns (rest: seq<Entry>)
    ensures rest == Without(data, DeletableFields)
  {
    rest := data;
    WithoutNone(data, []);
    for i := 0 to |DeletableFields|
      invariant rest == Without(data, DeletableFields[..i])
    {
      var key := DeletableFields[i];
      WithoutOneMore(data, DeletableFields[..i], key);
      assert DeletableFields[..i] + [key] == DeletableFields[..i + 1];
      if key in Keys(rest) {
        rest := Without(rest, [key]);
      } else {
        WithoutAbsent(rest, key);
      }
    }
    assert DeletableFields[..|DeletableFields|] == DeletableFields;
  }

  /**
   The remaining pass: a `- key: value` line for each
   entry left, its value rendered one level deeper. Also returns the
   entries as those renderings leave them.
   */
  method RemainingPass(entries: seq<Entry>, data: seq<Entry>, indent: nat, output: string)
    returns (out: string, kept: seq<Entry>)
    requires forall e :: e in data ==> e.1.Scalar? || e in entries
    ensures forall f :: f in RemainingPart(data) ==> f.value.Scalar? || (f.key, f.value) in entries
    ensures out == output + FieldsText(entries, RemainingPart(data), indent)
    ensures |kept| == |data|
    ensures forall j :: 0 <= j < |data| ==> kept[j] == (data[j].0, Pruned(data[j].1))
    decreases 1, entries, 1
  {
    out := output;
    kept := [];
    for j := 0 to |data|
      invariant forall f :: f in RemainingPart(data[..j]) ==> (f.key, f.value) in data
      invariant out == output + FieldsText(entries, RemainingPart(data[..j]), indent)
      invariant |kept| == j
      invariant forall m :: 0 <= m < j ==> kept[m] == (data[m].0, Pruned(data[m].1))
    {
      var (key, value) := data[j];
      assert data[j] in data;
      var line, v := RemainingEntry(entries, key, value, indent);
      RemainingStep(data, j);
      Extend(entries, RemainingPart(data[..j]), Field(key, value, false), indent, output, line);
      out := out + line;
      KeptStep(data, j, kept, v);
      kept := kept + [(key, v)];
    }
    assert data[..|data|] == data;
  }

  /** The line of any other field: its head, the value rendered one level deeper, a newline. */
  method RemainingEntry(entries: seq<Entry>, key: string, value: Value, indent: nat) returns (line: string, after: Value)
    requires value.Scalar? || (key, value) in entries
    ensures line == FieldLine(entries, Field(key, value, false), indent)
    ensures after == Pruned(value)
    decreases 1, entries, 0
  {
    assert !value.Scalar? ==> value < (key, value);
    var text;
    text, after := DeepSerialize(value, indent + 1);
    line := Pad(indent + 1) + "- " + key + ": " + text + "\n";
  }

  lemma RemainingStep(data: seq<Entry>, j: nat)
    requires j < |data|
    ensures RemainingPart(data[..j + 1]) == RemainingPart(data[..j]) + [Field(data[j].0, data[j].1, false)]
  {
  }

  lemma KeptStep(data: seq<Entry>, j: nat, kept: seq<Entry>, v: Value)
    requires j < |data| && |kept| == j && v == Pruned(data[j].1)
    requires forall m :: 0 <= m < j ==> kept[m] == (data[m].0, Pruned(data[m].1))
    ensures forall m :: 0 <= m < j + 1 ==> (kept + [(data[j].0, v)])[m] == (data[m].0, Pruned(data[m].1))
  {
  }
}
