/**
 What `deep_serialize(data, indent)` returns, as a recursive function of the
 tree, and the layout properties of that text.
 */
module Rendering {
  import opened Text
  import opened Values

  /** Two spaces per nesting level. */
  function Pad(indent: nat): string
  {
    Spaces(2 * indent)
  }

  /**
   The text for `v` at nesting level `indent`. A scalar shows its text, or
   `""` when that text is empty; a list is bracketed, inline when it has one
   item and one line per item otherwise; a dict is braced, one line per
   emitted field.
   */
  function Render(v: Value, indent: nat): string
    decreases Kind(v), v, 0
  {
    match v
    case Scalar(text, _) =>
      if |text| == 0 then "\"\"" else text
    case List(items) =>
      if |items| == 0 then "[]"
      else if |items| == 1 then "[ " + Join("\n" + Pad(indent), SplitLines(Render(items[0], 0))) + " ]"
      else "[ " + ItemsText(items, indent) + "\n" + Pad(indent) + " ]"
    case Map(es) =>
      "{\n" + FieldsText(es, Emitted(es), indent) + Pad(indent) + "}"
  }

  /**
   Nothing renders as blank: in particular a scalar whose text is empty
   shows as `""`.
   */
  lemma NeverBlank(v: Value, indent: nat)
    ensures |Render(v, indent)| > 0
    ensures v.Scalar? ==> Render(v, indent) == if v.text == "" then "\"\"" else v.text
  {
  }

  /** A list's text is bracketed and a dict's braced, whatever they hold. */
  lemma Delimiters(v: Value, indent: nat)
    ensures var r := Render(v, indent);
      && (v.List? ==> |r| >= 2 && r[0] == '[' && r[|r| - 1] == ']')
      && (v.Map? ==> |r| >= 3 && r[0] == '{' && r[|r| - 1] == '}')
  {
  }

  /** The line one item of a list of two or more items gets, at the list's own level. */
  function ItemLine(x: Value, indent: nat): string
    decreases Kind(x), x, 1
  {
    "\n" + Pad(indent + 1) + "- " + Render(x, indent)
  }

  /** The item lines of a list of two or more items. */
  function ItemsText(items: seq<Value>, indent: nat): string
    decreases 1, items
  {
    if items == [] then ""
    else
      ItemsText(items[..|items| - 1], indent) + ItemLine(items[|items| - 1], indent)
  }

  /**
   The item lines follow the items' order: the lines of `a + b` are the
   lines of `a` followed by those of `b`.
   */
  lemma {:induction false} ItemsTextAppend(a: seq<Value>, b: seq<Value>, indent: nat)
    ensures ItemsText(a + b, indent) == ItemsText(a, indent) + ItemsText(b, indent)
    decreases |b|
  {
    if b == [] {
      assert a + b == a;
    } else {
      var init, last := b[..|b| - 1], b[|b| - 1];
      assert (a + b)[..|a + b| - 1] == a + init && (a + b)[|a + b| - 1] == last;
      ItemsTextAppend(a, init, indent);
      ItemsTextLast(a + b, indent);
      ItemsTextLast(b, indent);
      Regroup(ItemsText(a, indent), ItemsText(init, indent), ItemLine(last, indent));
    }
  }

  lemma ItemsTextLast(items: seq<Value>, indent: nat)
    requires items != []
    ensures ItemsText(items, indent) == ItemsText(items[..|items| - 1], indent) + ItemLine(items[|items| - 1], indent)
  {
  }

  /** Each item contributes exactly its own line. */
  lemma ItemsTextOne(x: Value, indent: nat)
    ensures ItemsText([x], indent) == ItemLine(x, indent)
  {
    assert [x][..0] == [];
  }

  /**
   A list of two or more items: `[ `, one `- item` line per item in the
   items' order, each item rendered at the list's own level, then a line
   break, this level's padding and ` ]`. An empty list is `[]`.
   */
  lemma ListLayout(items: seq<Value>, x: Value, indent: nat)
    requires |items| >= 1
    ensures Render(List([]), indent) == "[]"
    ensures Render(List(items + [x]), indent)
      == "[ " + ItemsText(items, indent) + ItemLine(x, indent) + "\n" + Pad(indent) + " ]"
  {
    var a, b := ItemsText(items, indent), ItemLine(x, indent);
    ManyItems(items + [x], indent);
    ItemsTextAppend(items, [x], indent);
    ItemsTextOne(x, indent);
    Regroup("[ ", a, b);
  }

  lemma ManyItems(items: seq<Value>, indent: nat)
    requires |items| >= 2
    ensures Render(List(items), indent) == "[ " + ItemsText(items, indent) + "\n" + Pad(indent) + " ]"
  {
  }

  /** The padded `- key: ` that opens a field's line. */
  function FieldHead(key: string, indent: nat): string
  {
    Pad(indent + 1) + "- " + key + ": "
  }

  /**
   The line for field `f` of the dict with entries `es`. A preferred
   field's value is rendered at the dict's own level, its lines pushed under
   the value's first column and the whole stripped; any other field's value
   is rendered one level deeper and shown as it is.
   */
  function FieldLine(es: seq<Entry>, f: Field, indent: nat): string
    requires f.value.Scalar? || (f.key, f.value) in es
    decreases 1, es, 0
  {
    assert !f.value.Scalar? ==> f.value < (f.key, f.value);
    var head := FieldHead(f.key, indent);
    if f.preferred then head + Strip(Join("\n", Reindent(|head|, SplitLines(Render(f.value, indent))))) + "\n"
    else head + Render(f.value, indent + 1) + "\n"
  }

  /** The lines for fields `fs` of the dict with entries `es`, in order. */
  function FieldsText(es: seq<Entry>, fs: seq<Field>, indent: nat): string
    requires forall f :: f in fs ==> f.value.Scalar? || (f.key, f.value) in es
    decreases 1, es, |fs|
  {
    if fs == [] then ""
    else
      assert fs[|fs| - 1] in fs;
      FieldsText(es, fs[..|fs| - 1], indent) + FieldLine(es, fs[|fs| - 1], indent)
  }

  lemma FieldsTextSnoc(es: seq<Entry>, fs: seq<Field>, f: Field, indent: nat)
    requires forall g :: g in fs ==> g.value.Scalar? || (g.key, g.value) in es
    requires f.value.Scalar? || (f.key, f.value) in es
    ensures forall g :: g in fs + [f] ==> g.value.Scalar? || (g.key, g.value) in es
    ensures FieldsText(es, fs + [f], indent) == FieldsText(es, fs, indent) + FieldLine(es, f, indent)
  {
    assert (fs + [f])[..|fs|] == fs;
  }

  lemma {:induction false} FieldsTextAppend(es: seq<Entry>, a: seq<Field>, b: seq<Field>, indent: nat)
    requires forall f :: f in a + b ==> f.value.Scalar? || (f.key, f.value) in es
    ensures FieldsText(es, a + b, indent) == FieldsText(es, a, indent) + FieldsText(es, b, indent)
    decreases |b|
  {
    if b == [] {
      assert a + b == a;
    } else {
      var init, last := b[..|b| - 1], b[|b| - 1];
      assert a + b == (a + init) + [last];
      assert b == init + [last];
      assert forall f :: f in a + init ==> f in a + b;
      FieldsTextAppend(es, a, init, indent);
      FieldsTextSnoc(es, a + init, last, indent);
      FieldsTextSnoc(es, init, last, indent);
      Regroup(FieldsText(es, a, indent), FieldsText(es, init, indent), FieldLine(es, last, indent));
    }
  }

  /** The entries passed along only bound the recursion; they do not change the text. */
  lemma {:induction false} FieldsTextAnyOwner(a: seq<Entry>, b: seq<Entry>, fs: seq<Field>, indent: nat)
    requires forall f :: f in fs ==> f.value.Scalar? || (f.key, f.value) in a
    requires forall f :: f in fs ==> f.value.Scalar? || (f.key, f.value) in b
    ensures FieldsText(a, fs, indent) == FieldsText(b, fs, indent)
  {
    if fs != [] {
      FieldsTextAnyOwner(a, b, fs[..|fs| - 1], indent);
    }
  }

  /** Each field's line is at least its padded `- key: ` head and its newline. */
  lemma {:induction false} FieldsTextEmpty(es: seq<Entry>, fs: seq<Field>, indent: nat)
    requires forall f :: f in fs ==> f.value.Scalar? || (f.key, f.value) in es
    ensures FieldsText(es, fs, indent) == "" <==> fs == []
  {
    if fs != [] {
      var f := fs[|fs| - 1];
      assert f in fs;
      assert |FieldLine(es, f, indent)| > 0;
    }
  }

  /**
   A dict's text: `{`, a newline, the preferred fields present (in the
   order of `PreferredFields`), then the fields that survive the
   deletions (in dict order), and the closing brace at the dict's level.
   */
  lemma MapLayout(es: seq<Entry>, indent: nat)
    ensures var w := Working(es);
      var preferred := PreferredPart(w, PreferredFields);
      var remaining := RemainingPart(Without(w, DeletableFields));
      && (forall f :: f in preferred + remaining ==> f.value.Scalar? || (f.key, f.value) in es)
      && Render(Map(es), indent)
         == "{\n" + FieldsText(es, preferred, indent) + FieldsText(es, remaining, indent) + Pad(indent) + "}"
  {
    var w := Working(es);
    var preferred := PreferredPart(w, PreferredFields);
    var remaining := RemainingPart(Without(w, DeletableFields));
    EmittedText(es, indent);
    RenderMapText(es, indent, FieldsText(es, preferred, indent), FieldsText(es, remaining, indent));
  }

  lemma RenderMapText(es: seq<Entry>, indent: nat, x: string, y: string)
    requires FieldsText(es, Emitted(es), indent) == x + y
    ensures Render(Map(es), indent) == "{\n" + x + y + Pad(indent) + "}"
  {
    RenderMapUnfold(es, indent);
    Braces(x, y, Pad(indent));
  }

  lemma Braces(x: string, y: string, p: string)
    ensures "{\n" + (x + y) + p + "}" == "{\n" + x + y + p + "}"
  {
  }

  lemma EmittedText(es: seq<Entry>, indent: nat)
    ensures var w := Working(es);
      var preferred := PreferredPart(w, PreferredFields);
      var remaining := RemainingPart(Without(w, DeletableFields));
      && (forall f :: f in preferred + remaining ==> f.value.Scalar? || (f.key, f.value) in es)
      && FieldsText(es, Emitted(es), indent)
         == FieldsText(es, preferred, indent) + FieldsText(es, remaining, indent)
  {
    var w := Working(es);
    var preferred := PreferredPart(w, PreferredFields);
    var remaining := RemainingPart(Without(w, DeletableFields));
    EmittedUnfold(es);
    FieldsTextAppend(es, preferred, remaining, indent);
  }

  lemma RenderMapUnfold(es: seq<Entry>, indent: nat)
    ensures Render(Map(es), indent) == "{\n" + FieldsText(es, Emitted(es), indent) + Pad(indent) + "}"
  {
  }

  lemma EmittedUnfold(es: seq<Entry>)
    ensures Emitted(es)
      == PreferredPart(Working(es), PreferredFields) + RemainingPart(Without(Working(es), DeletableFields))
  {
  }

  /**
   The reference text of a dict none of whose keys is deletable: one
   `- key: value` line per entry, in dict order, each value one level
   deeper.
   */
  function PlainLines(es: seq<Entry>, indent: nat): string
  {
    if es == [] then ""
    else PlainLines(es[..|es| - 1], indent) + PlainLine(es[|es| - 1], indent)
  }

  function PlainLine(e: Entry, indent: nat): string
  {
    Pad(indent + 1) + "- " + e.0 + ": " + Render(e.1, indent + 1) + "\n"
  }

  /**
   A dict with no deletable key (so no preferred key and no `no_log`
   marker either) shows each entry as it stands, in its own order.
   */
  lemma PlainMap(es: seq<Entry>, indent: nat)
    requires forall i :: 0 <= i < |es| ==> es[i].0 !in DeletableFields
    ensures Render(Map(es), indent) == "{\n" + PlainLines(es, indent) + Pad(indent) + "}"
  {
    assert NoLogField in DeletableFields;
    assert !Censors(es);
    PreferredAreDeletable();
    PresentNone(PreferredFields, Keys(es));
    WithoutNone(es, DeletableFields);
    EmittedUnfold(es);
    assert Emitted(es) == RemainingPart(es);
    PlainFields(es, |es|, indent);
    assert es[..|es|] == es;
    RenderMapUnfold(es, indent);
  }

  lemma PlainOwned(es: seq<Entry>, k: nat)
    requires k <= |es|
    ensures forall f :: f in RemainingPart(es[..k]) ==> (f.key, f.value) in es
  {
    var fs := RemainingPart(es[..k]);
    forall f | f in fs
      ensures (f.key, f.value) in es
    {
      var i :| 0 <= i < |fs| && fs[i] == f;
      assert es[..k][i] == es[i];
    }
  }

  lemma {:induction false} PlainFields(es: seq<Entry>, k: nat, indent: nat)
    requires k <= |es|
    ensures forall f :: f in RemainingPart(es[..k]) ==> (f.key, f.value) in es
    ensures FieldsText(es, RemainingPart(es[..k]), indent) == PlainLines(es[..k], indent)
  {
    PlainOwned(es, k);
    if k > 0 {
      PlainFields(es, k - 1, indent);
      var f := Field(es[k - 1].0, es[k - 1].1, false);
      assert RemainingPart(es[..k]) == RemainingPart(es[..k - 1]) + [f];
      assert es[..k][..k - 1] == es[..k - 1];
      FieldsTextSnoc(es, RemainingPart(es[..k - 1]), f, indent);
      assert FieldLine(es, f, indent) == PlainLine(es[k - 1], indent);
    }
  }

  /**
   A dict whose `_ansible_no_log` is truthy is shown as the one-field
   `censored` dict, whatever else it holds.
   */
  lemma CensoredLayout(es: seq<Entry>, indent: nat)
    requires Censors(es)
    ensures Render(Map(es), indent)
      == "{\n" + FieldHead("censored", indent) + CensoredMessage + "\n" + Pad(indent) + "}"
  {
    var head := FieldHead("censored", indent);
    CensoredText(es, indent);
    RenderMapText(es, indent, head + CensoredMessage, "\n");
    Regroup("{\n", head, CensoredMessage);
  }

  lemma CensoredText(es: seq<Entry>, indent: nat)
    requires Censors(es)
    ensures FieldsText(es, Emitted(es), indent) == FieldHead("censored", indent) + CensoredMessage + "\n"
  {
    var f := Field("censored", Scalar(CensoredMessage, true), false);
    CensoredEmitted(es);
    FieldsTextSnoc(es, [], f, indent);
    assert [] + [f] == [f];
  }

  lemma Regroup(a: string, b: string, c: string)
    ensures a + (b + c) == a + b + c
  {
  }

  lemma CensoredEmitted(es: seq<Entry>)
    requires Censors(es)
    ensures Emitted(es) == [Field("censored", Scalar(CensoredMessage, true), false)]
  {
    CensoredFields();
    EmittedUnfold(es);
  }

  lemma CensoredFields()
    ensures PreferredPart(CensoredEntries, PreferredFields) == []
    ensures Without(CensoredEntries, DeletableFields) == CensoredEntries
  {
    var p := PreferredPart(CensoredEntries, PreferredFields);
    assert Keys(CensoredEntries) == ["censored"];
    assert "censored" !in PreferredFields;
    PresentNone(PreferredFields, Keys(CensoredEntries));
    assert "censored" !in DeletableFields;
  }

  lemma {:induction false} PresentNone(keys: seq<string>, present: seq<string>)
    requires forall k :: k in keys ==> k !in present
    ensures Present(keys, present) == []
  {
    if keys != [] {
      PresentNone(keys[..|keys| - 1], present);
    }
  }

  /** The censored output depends on nothing the censored dict held. */
  lemma CensorHidesPayload(a: seq<Entry>, b: seq<Entry>, indent: nat)
    requires Censors(a) && Censors(b)
    ensures Render(Map(a), indent) == Render(Map(b), indent)
  {
    CensoredLayout(a, indent);
    CensoredLayout(b, indent);
  }

  /**
   A dict renders as the bare `{`, newline, padded `}` exactly when each of
   its keys is a bookkeeping field: deletable and not preferred.
   */
  lemma EmptyBody(es: seq<Entry>, indent: nat)
    ensures Render(Map(es), indent) == "{\n" + Pad(indent) + "}"
      <==> forall k :: k in Keys(Working(es)) ==> k in DeletableFields && k !in PreferredFields
  {
    var body := FieldsText(es, Emitted(es), indent);
    RenderMapUnfold(es, indent);
    BracesEmpty(body, Pad(indent));
    FieldsTextEmpty(es, Emitted(es), indent);
    NothingEmitted(es);
  }

  lemma BracesEmpty(body: string, p: string)
    ensures "{\n" + body + p + "}" == "{\n" + p + "}" <==> body == ""
  {
    if body != "" {
      assert |"{\n" + body + p + "}"| > |"{\n" + p + "}"|;
    } else {
      assert "{\n" + body == "{\n";
    }
  }

  /** No field is emitted exactly when every key is deletable and not preferred. */
  lemma NothingEmitted(es: seq<Entry>)
    ensures Emitted(es) == []
      <==> forall k :: k in Keys(Working(es)) ==> k in DeletableFields && k !in PreferredFields
  {
    var fs := Emitted(es);
    forall k
      ensures k in FieldKeys(fs) <==> k in Keys(Working(es)) && (k in PreferredFields || k !in DeletableFields)
    {
      EmittedKeys(es, k);
    }
    if fs != [] {
      assert FieldKeys(fs)[0] in FieldKeys(fs);
    }
  }

  /**
   The preferred block of a dict does not depend on the order its entries
   were inserted in.
   */
  lemma PreferredBlockIgnoresOrder(a: seq<Entry>, b: seq<Entry>, indent: nat)
    requires DistinctKeys(a) && DistinctKeys(b)
    requires forall e :: e in a <==> e in b
    ensures var pa := PreferredPart(Working(a), PreferredFields);
      var pb := PreferredPart(Working(b), PreferredFields);
      && (forall f :: f in pa ==> f.value.Scalar? || (f.key, f.value) in a)
      && (forall f :: f in pb ==> f.value.Scalar? || (f.key, f.value) in b)
      && FieldsText(a, pa, indent) == FieldsText(b, pb, indent)
  {
    MapLayout(a, indent);
    MapLayout(b, indent);
    LookupIgnoresOrder(a, b, NoLogField);
    var wa, wb := Working(a), Working(b);
    if !Censors(a) {
      PreferredPartIgnoresOrder(wa, wb, PreferredFields);
    }
    var pa := PreferredPart(wa, PreferredFields);
    assert forall f :: f in pa ==> (f.key, f.value) in wa;
    FieldsTextAnyOwner(a, b, pa, indent);
  }

  /**
   A one-item list: `[ `, the item's text at level 0 with each of its line
   breaks followed by this level's padding, then ` ]`. At level 0 that is
   the item's text as it stands, so `["false"]` gives `[ false ]`.
   */
  lemma SingleItemList(x: Value, indent: nat)
    requires !EndsWithNewline(Render(x, 0))
    ensures Render(List([x]), indent) == "[ " + Realign(Render(x, 0), Pad(indent)) + " ]"
    ensures Render(List([x]), 0) == "[ " + Render(x, 0) + " ]"
  {
    var t := Render(x, 0);
    OneItem(x, indent);
    OneItem(x, 0);
    JoinLinesRealigns(t, Pad(indent));
    JoinLinesRealigns(t, Pad(0));
    assert Pad(0) == "";
    RealignEmptyPad(t);
  }

  lemma OneItem(x: Value, indent: nat)
    ensures Render(List([x]), indent) == "[ " + Join("\n" + Pad(indent), SplitLines(Render(x, 0))) + " ]"
  {
  }

  /**
   A preferred field whose rendered value has no whitespace at either end
   (any list or dict, most scalars) is shown as `- key: ` followed by that
   text, each later line pushed right to start under the value's first
   column.
   */
  lemma PreferredFieldAligned(es: seq<Entry>, key: string, v: Value, indent: nat)
    requires v.Scalar? || (key, v) in es
    requires var r := Render(v, indent); !IsSpace(r[0]) && !IsSpace(r[|r| - 1])
    ensures var head := FieldHead(key, indent);
      FieldsText(es, [Field(key, v, true)], indent)
        == head + Realign(Render(v, indent), Spaces(|head|)) + "\n"
  {
    var head := FieldHead(key, indent);
    StripReindented(|head|, Render(v, indent));
  }

  /** Lists and dicts always meet the condition of `PreferredFieldAligned`. */
  lemma ContainerEdges(v: Value, indent: nat)
    requires !v.Scalar?
    ensures var r := Render(v, indent); !IsSpace(r[0]) && !IsSpace(r[|r| - 1])
  {
  }
}
