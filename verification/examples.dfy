/**
 The expected outputs of the module's own test cases (`TestStringMethods`
 in callbacks/anstomlog.py), as facts about `Render`, and what a second
 rendering of the same dict shows once the first has pruned it. Each case
 takes its input as a parameter fixed by its precondition, as the test
 binds it to a local. An expected text written in the test as a
 triple-quoted block is written here one line per piece. The `...Text`
 lemmas only assemble the expected strings from their pieces.
 */
module Examples {
  import opened Text
  import opened Values
  import opened Rendering

  /** A string scalar: `str()` of it is itself, and it is truthy when non-empty. */
  function Str(s: string): Value
  {
    Scalar(s, s != "")
  }

  /** `["false"]` gives `[ false ]`. */
  lemma SingleItemArray(data: Value)
    requires data == List([Str("false")])
    ensures Render(data, 0) == "[ false ]"
  {
    ScalarList(data, 0);
  }

  /** `[""]` gives `[ "" ]`: the empty string still shows. */
  lemma SingleEmptyItemArray(data: Value)
    requires data == List([Str("")])
    ensures Render(data, 0) == "[ \"\" ]"
  {
    var x := data.items[0];
    assert Render(x, 0) == "\"\"";
    SingleItemList(x, 0);
    assert data == List([x]);
  }

  /** A non-ASCII string is shown as it is. */
  lemma Issue4(data: Value)
    requires data == List([Str("ÉLÉGANT")])
    ensures Render(data, 0) == "[ ÉLÉGANT ]"
  {
    ScalarList(data, 0);
  }

  lemma EmptyArray(data: Value)
    requires data == List([])
    ensures Render(data, 0) == "[]"
  {
  }

  lemma SimpleHash(hs: Value)
    requires hs == Map([("cmd", Str("toto")), ("ret", Str("12"))])
    ensures Render(hs, 0) == "{\n  - cmd: toto\n  - ret: 12\n}"
  {
    OrdinaryKeys();
    TwoEntries(hs.entries, 0, "toto", "12");
    Pads();
    SimpleHashText();
  }

  lemma SimpleHashText()
    ensures "{\n" + ("  " + "- " + "cmd" + ": " + "toto" + "\n" + ("  " + "- " + "ret" + ": " + "12" + "\n"))
      + "" + "}" == "{\n  - cmd: toto\n  - ret: 12\n}"
  {
  }

  lemma HashArray(hs: Value)
    requires hs == Map([("cmd", List([Str("false")]))])
    ensures Render(hs, 0) == "{\n  - cmd: [ false ]\n}"
  {
    var es := hs.entries;
    OrdinaryKeys();
    ScalarList(es[0].1, 1);
    OneEntry(es, 0, "[ " + "false" + " ]");
    Pads();
    HashArrayText();
  }

  lemma HashArrayText()
    ensures "{\n" + ("  " + "- " + "cmd" + ": " + ("[ " + "false" + " ]") + "\n") + "" + "}"
      == "{\n  - cmd: [ false ]\n}"
  {
  }

  /** A two-item list under a key: one `- item` line per item, one level deeper. */
  lemma HashArray2(hs: Value)
    requires hs == Map([("cmd", List([Str("one"), Str("two")]))])
    ensures Render(hs, 0) == "{\n" + "  - cmd: [ \n" + "    - one\n" + "    - two\n" + "   ]\n" + "}"
  {
    var es := hs.entries;
    OrdinaryKeys();
    TwoItems(es[0].1, 1);
    OneEntry(es, 0, TwoItemsText("one", "two", 1));
    Pads();
    OneTwo();
    HashArray2Text();
  }

  lemma HashArray2Text()
    ensures "{\n" + ("  " + "- " + "cmd" + ": "
        + ("[ " + "\n" + "    " + "- " + "one" + "\n" + "    " + "- " + "two" + "\n" + "  " + " ]") + "\n") + "" + "}"
      == "{\n" + "  - cmd: [ \n" + "    - one\n" + "    - two\n" + "   ]\n" + "}"
  {
  }

  /** `rc` is preferred: it comes first though `cmd` was inserted before it. */
  lemma FavoriteHash(hs: Value)
    requires hs == Map([("cmd", Str("toto")), ("rc", Str("12"))])
    ensures Render(hs, 0) == "{\n  - rc: 12\n  - cmd: toto\n}"
  {
    var es := hs.entries;
    FavoriteParts(es);
    MapLayout(es, 0);
    RcLine(es);
    CmdLine(es);
    Pads();
    FavoriteHashText();
  }

  lemma FavoriteHashText()
    ensures "{\n" + ("  - rc: " + "12" + "\n") + ("  - cmd: " + "toto" + "\n") + "" + "}"
      == "{\n  - rc: 12\n  - cmd: toto\n}"
  {
  }

  /** The `rc` line of the favorite-hash dict, from the preferred pass. */
  lemma RcLine(es: seq<Entry>)
    requires es == [("cmd", Str("toto")), ("rc", Str("12"))]
    ensures FieldsText(es, [Field("rc", es[1].1, true)], 0) == "  - rc: " + "12" + "\n"
  {
    var v := es[1].1;
    assert es[1] in es;
    PreferredFieldAligned(es, "rc", v, 0);
    RealignNoNewline(Render(v, 0), Spaces(|FieldHead("rc", 0)|));
    assert FieldHead("rc", 0) == "  - rc: " by {
      Pads();
    }
  }

  /** The `cmd` line of the favorite-hash dict, from the remaining pass. */
  lemma CmdLine(es: seq<Entry>)
    requires es == [("cmd", Str("toto")), ("rc", Str("12"))]
    ensures FieldsText(es, [Field("cmd", es[0].1, false)], 0) == "  - cmd: " + "toto" + "\n"
  {
    var f := Field("cmd", es[0].1, false);
    assert es[0] in es;
    FieldsTextSnoc(es, [], f, 0);
    assert [] + [f] == [f];
    assert FieldHead("cmd", 0) == "  - cmd: " by {
      Pads();
    }
  }

  /** How the favorite-hash dict splits into the two passes. */
  lemma FavoriteParts(es: seq<Entry>)
    requires es == [("cmd", Str("toto")), ("rc", Str("12"))]
    ensures Working(es) == es
    ensures PreferredPart(es, PreferredFields) == [Field("rc", es[1].1, true)]
    ensures Without(es, DeletableFields) == [es[0]]
    ensures RemainingPart(Without(es, DeletableFields)) == [Field("cmd", es[0].1, false)]
  {
    NotCensored(es);
    FavoritePreferred(es);
    FavoriteWithout(es);
  }

  lemma FavoriteWithout(es: seq<Entry>)
    requires es == [("cmd", Str("toto")), ("rc", Str("12"))]
    ensures Without(es, DeletableFields) == [es[0]]
  {
    OrdinaryKeys();
    assert "rc" in DeletableFields;
    assert es[1..][1..] == [];
  }

  lemma FavoritePreferred(es: seq<Entry>)
    requires es == [("cmd", Str("toto")), ("rc", Str("12"))]
    ensures PreferredPart(es, PreferredFields) == [Field("rc", es[1].1, true)]
  {
    var p := PreferredPart(es, PreferredFields);
    assert Keys(es) == ["cmd", "rc"];
    OnlyRc();
    assert |p| == 1 && FieldKeys(p)[0] == p[0].key;
    assert p[0] in p;
    assert Lookup(es, "rc") == Some(es[1].1);
  }

  /** Of the preferred keys, the favorite-hash dict holds `rc` alone. */
  lemma OnlyRc()
    ensures Present(PreferredFields, ["cmd", "rc"]) == ["rc"]
  {
    var ks := ["cmd", "rc"];
    var pf := PreferredFields;
    assert pf[..1][..0] == [] && Present(pf[..1], ks) == [];
    assert pf[..2][..1] == pf[..1] && Present(pf[..2], ks) == ["rc"];
    assert pf[..3][..2] == pf[..2] && Present(pf[..3], ks) == ["rc"];
    assert pf[..4][..3] == pf[..3] && Present(pf[..4], ks) == ["rc"];
    assert pf[..5][..4] == pf[..4] && Present(pf[..5], ks) == ["rc"];
    assert pf[..6][..5] == pf[..5] && pf[..6] == pf;
  }

  /** A dict inside a dict: the inner one's lines sit one level deeper. */
  lemma Nested(hs: Value)
    requires hs == Map([("cmd", Map([("bar", List([Str("one"), Str("two")]))]))])
    ensures Render(hs, 0) == "{\n" + "  - cmd: {\n" + "    - bar: [ \n" + "      - one\n"
      + "      - two\n" + "     ]\n" + "  }\n" + "}"
  {
    var es := hs.entries;
    OrdinaryKeys();
    NestedInner(es[0].1);
    OneEntry(es, 0, "{\n" + "    - bar: [ \n" + "      - one\n" + "      - two\n" + "     ]\n" + "  }");
    Pads();
    NestedText();
  }

  /** The inner dict of the nested case, at level 1. */
  lemma NestedInner(v: Value)
    requires v == Map([("bar", List([Str("one"), Str("two")]))])
    ensures Render(v, 1) == "{\n" + "    - bar: [ \n" + "      - one\n" + "      - two\n" + "     ]\n" + "  }"
  {
    var inner := v.entries;
    OrdinaryKeys();
    TwoItems(inner[0].1, 2);
    OneEntry(inner, 1, TwoItemsText("one", "two", 2));
    Pads();
    OneTwo();
    NestedInnerText();
  }

  lemma NestedInnerText()
    ensures "{\n" + ("    " + "- " + "bar" + ": "
        + ("[ " + "\n" + "      " + "- " + "one" + "\n" + "      " + "- " + "two" + "\n" + "    " + " ]")
        + "\n") + "  " + "}"
      == "{\n" + "    - bar: [ \n" + "      - one\n" + "      - two\n" + "     ]\n" + "  }"
  {
  }

  lemma NestedText()
    ensures "{\n" + ("  " + "- " + "cmd" + ": "
        + ("{\n" + "    - bar: [ \n" + "      - one\n" + "      - two\n" + "     ]\n" + "  }")
        + "\n") + "" + "}"
      == "{\n" + "  - cmd: {\n" + "    - bar: [ \n" + "      - one\n"
        + "      - two\n" + "     ]\n" + "  }\n" + "}"
  {
  }

  /** A list inside a one-item list keeps its own line layout. */
  lemma MultilineSingle(hs: Value)
    requires hs == List([List([Str("foo"), Str("bar")])])
    ensures Render(hs, 0) == "[ [ \n" + "  - foo\n" + "  - bar\n" + " ] ]"
  {
    var inner := hs.items[0];
    TwoItems(inner, 0);
    Delimiters(inner, 0);
    SingleItemList(inner, 0);
    assert hs == List([inner]);
    Pads();
    MultilineSingleText();
  }

  lemma MultilineSingleText()
    ensures "[ " + ("[ " + "\n" + "  " + "- " + "foo" + "\n" + "  " + "- " + "bar" + "\n" + "" + " ]") + " ]"
      == "[ [ \n" + "  - foo\n" + "  - bar\n" + " ] ]"
  {
  }

  /** One-item lists add no padding of their own at level 0. */
  lemma EmptyArrayNoPadding(hs: Value)
    requires hs == List([List([Map([("foo", List([]))])])])
    ensures Render(hs, 0) == "[ [ {\n" + "  - foo: []\n" + "} ] ]"
  {
    var inner := hs.items[0];
    FooList(inner);
    Inline(inner);
    assert hs == List([inner]);
    EmptyArrayNoPaddingText();
  }

  /** The one-item list inside the empty-array case. */
  lemma FooList(v: Value)
    requires v == List([Map([("foo", List([]))])])
    ensures Render(v, 0) == "[ " + ("{\n" + "  - foo: []\n" + "}") + " ]"
  {
    var dict := v.items[0];
    FooDict(dict);
    Inline(dict);
    assert v == List([dict]);
  }

  lemma FooDict(v: Value)
    requires v == Map([("foo", List([]))])
    ensures Render(v, 0) == "{\n" + "  - foo: []\n" + "}"
  {
    OrdinaryKeys();
    OneEntry(v.entries, 0, "[]");
    Pads();
    FooDictText();
  }

  lemma FooDictText()
    ensures "{\n" + ("  " + "- " + "foo" + ": " + "[]" + "\n") + "" + "}" == "{\n" + "  - foo: []\n" + "}"
  {
  }

  lemma EmptyArrayNoPaddingText()
    ensures "[ " + ("[ " + ("{\n" + "  - foo: []\n" + "}") + " ]") + " ]"
      == "[ [ {\n" + "  - foo: []\n" + "} ] ]"
  {
  }

  /** A container as the only item of a list at level 0 sits inline between the brackets. */
  lemma Inline(x: Value)
    requires x.List? || x.Map?
    ensures Render(List([x]), 0) == "[ " + Render(x, 0) + " ]"
  {
    Delimiters(x, 0);
    SingleItemList(x, 0);
  }

  /** A dict holding only bookkeeping fields shows as an empty pair of braces. */
  lemma HiddenFields(hs: Value)
    requires hs == Map([("_ansible_verbose_always", Scalar("True", true))])
    ensures Render(hs, 0) == "{\n}"
  {
    var es := hs.entries;
    OnlyBookkeeping(es);
    EmptyBody(es, 0);
    assert Pad(0) == "";
  }

  lemma OnlyBookkeeping(es: seq<Entry>)
    requires es == [("_ansible_verbose_always", Scalar("True", true))]
    ensures forall k :: k in Keys(Working(es)) ==> k in DeletableFields && k !in PreferredFields
  {
    NotCensored(es);
    assert Keys(es) == ["_ansible_verbose_always"];
  }

  /**
   The favorite-hash dict after a first rendering: `rc` has been deleted
   from it, so a second rendering shows `cmd` alone.
   */
  lemma SecondRendering(hs: Value)
    requires hs == Map([("cmd", Str("toto")), ("rc", Str("12"))])
    ensures Pruned(hs) == Map([("cmd", Str("toto"))])
    ensures Render(Pruned(hs), 0) == "{\n  - cmd: toto\n}"
    ensures Render(Pruned(hs), 0) != Render(hs, 0)
  {
    FavoritePruned(hs);
    CmdOnly(Pruned(hs));
    FavoriteHash(hs);
    SecondRenderingText();
  }

  lemma CmdOnly(v: Value)
    requires v == Map([("cmd", Str("toto"))])
    ensures Render(v, 0) == "{\n  - cmd: toto\n}"
  {
    OrdinaryKeys();
    OneEntry(v.entries, 0, "toto");
    Pads();
    CmdOnlyText();
  }

  lemma CmdOnlyText()
    ensures "{\n" + ("  " + "- " + "cmd" + ": " + "toto" + "\n") + "" + "}" == "{\n  - cmd: toto\n}"
  {
  }

  lemma FavoritePruned(hs: Value)
    requires hs == Map([("cmd", Str("toto")), ("rc", Str("12"))])
    ensures Pruned(hs) == Map([("cmd", Str("toto"))])
  {
    var es := hs.entries;
    FavoriteParts(es);
    PrunedMapEntries(es);
    assert Pruned(hs).entries == [("cmd", Str("toto"))];
  }

  lemma SecondRenderingText()
    ensures "{\n  - cmd: toto\n}" != "{\n  - rc: 12\n  - cmd: toto\n}"
  {
    assert |"{\n  - cmd: toto\n}"| != |"{\n  - rc: 12\n  - cmd: toto\n}"|;
  }

  /** The keys the test cases use are neither preferred nor deletable. */
  lemma OrdinaryKeys()
    ensures "cmd" !in DeletableFields && "ret" !in DeletableFields
    ensures "bar" !in DeletableFields && "foo" !in DeletableFields
  {
  }

  lemma NotCensored(es: seq<Entry>)
    requires forall i :: 0 <= i < |es| ==> es[i].0 != NoLogField
    ensures !Censors(es) && Working(es) == es
  {
    assert NoLogField !in Keys(es);
  }

  lemma Pads()
    ensures Pad(0) == "" && Pad(1) == "  " && Pad(2) == "    " && Pad(3) == "      "
  {
  }

  /** A one-item list of a one-line, non-empty string shows that string inline. */
  lemma ScalarList(v: Value, indent: nat)
    requires v.List? && |v.items| == 1 && v.items[0].Scalar?
    requires v.items[0].text != "" && '\n' !in v.items[0].text
    ensures Render(v, indent) == "[ " + v.items[0].text + " ]"
  {
    var t := v.items[0].text;
    assert Render(v.items[0], 0) == t;
    assert t[|t| - 1] in t;
    SingleItemList(v.items[0], indent);
    RealignNoNewline(t, Pad(indent));
    assert v == List([v.items[0]]);
  }

  /** A dict of one entry whose key is not deletable. */
  lemma OneEntry(es: seq<Entry>, indent: nat, text: string)
    requires |es| == 1 && es[0].0 !in DeletableFields
    requires Render(es[0].1, indent + 1) == text
    ensures Render(Map(es), indent) == "{\n" + (Pad(indent + 1) + "- " + es[0].0 + ": " + text + "\n") + Pad(indent) + "}"
  {
    PlainMap(es, indent);
    assert es[..0] == [];
    assert PlainLines(es, indent) == PlainLine(es[0], indent);
  }

  /** A dict of two entries whose keys are not deletable. */
  lemma TwoEntries(es: seq<Entry>, indent: nat, a: string, b: string)
    requires |es| == 2 && es[0].0 !in DeletableFields && es[1].0 !in DeletableFields
    requires Render(es[0].1, indent + 1) == a && Render(es[1].1, indent + 1) == b
    ensures Render(Map(es), indent)
      == "{\n" + (Pad(indent + 1) + "- " + es[0].0 + ": " + a + "\n" + (Pad(indent + 1) + "- " + es[1].0 + ": " + b + "\n"))
        + Pad(indent) + "}"
  {
    PlainMap(es, indent);
    TwoPlainLines(es, indent);
    assert PlainLine(es[0], indent) == Pad(indent + 1) + "- " + es[0].0 + ": " + a + "\n";
    assert PlainLine(es[1], indent) == Pad(indent + 1) + "- " + es[1].0 + ": " + b + "\n";
  }

  lemma TwoPlainLines(es: seq<Entry>, indent: nat)
    requires |es| == 2
    ensures PlainLines(es, indent) == PlainLine(es[0], indent) + PlainLine(es[1], indent)
  {
    assert es[..1][..0] == [] && es[..1][0] == es[0];
    assert PlainLines(es[..1], indent) == PlainLine(es[0], indent);
  }

  /** The expected text of a list of two non-empty strings. */
  function TwoItemsText(a: string, b: string, indent: nat): string
  {
    "[ " + "\n" + Pad(indent + 1) + "- " + a + "\n" + Pad(indent + 1) + "- " + b + "\n" + Pad(indent) + " ]"
  }

  lemma TwoItems(v: Value, indent: nat)
    requires v.List? && |v.items| == 2 && v.items[0].Scalar? && v.items[1].Scalar?
    requires v.items[0].text != "" && v.items[1].text != ""
    ensures Render(v, indent) == TwoItemsText(v.items[0].text, v.items[1].text, indent)
  {
    var x, y := v.items[0], v.items[1];
    ListLayout([x], y, indent);
    ItemsTextOne(x, indent);
    assert [x] + [y] == v.items;
    ScalarItemLine(x, indent);
    ScalarItemLine(y, indent);
    TwoLines(x.text, y.text, Pad(indent + 1), Pad(indent));
  }

  lemma ScalarItemLine(x: Value, indent: nat)
    requires x.Scalar? && x.text != ""
    ensures ItemLine(x, indent) == "\n" + Pad(indent + 1) + "- " + x.text
  {
  }

  lemma TwoLines(a: string, b: string, p: string, q: string)
    ensures "[ " + ("\n" + p + "- " + a) + ("\n" + p + "- " + b) + "\n" + q + " ]"
      == "[ " + "\n" + p + "- " + a + "\n" + p + "- " + b + "\n" + q + " ]"
  {
  }

  lemma OneTwo()
    ensures TwoItemsText("one", "two", 1)
      == "[ " + "\n" + "    " + "- " + "one" + "\n" + "    " + "- " + "two" + "\n" + "  " + " ]"
    ensures TwoItemsText("one", "two", 2)
      == "[ " + "\n" + "      " + "- " + "one" + "\n" + "      " + "- " + "two" + "\n" + "    " + " ]"
  {
    Pads();
  }
}
