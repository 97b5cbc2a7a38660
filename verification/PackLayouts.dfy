/**
 Where the planners' insertions land: the ops for wizard.go are settled outright, those for the web client
 when the display name holds no double slash, and a name that holds an anchor shows why that is asked.
 */
module PackLayouts {
  import opened Common
  import opened TextPatch
  import opened PatchLayout
  import opened PackPlanners

  // ------------------------------------------------------------------
  // The web client: anchors indented by two spaces
  // ------------------------------------------------------------------

  /** No two slashes in a row and none at the end. */
  predicate NoDoubleSlash(s: string) { NoPair(s, '/', '/') }

  lemma SlashConcat(s: string, t: string)
    requires NoDoubleSlash(s) && NoDoubleSlash(t)
    ensures NoDoubleSlash(s + t)
  {
    PairConcat(s, t, '/', '/');
  }

  lemma TagNoSlash(s: string)
    requires IsTag(s)
    ensures NoDoubleSlash(s)
  {
    assert forall d :: 0 <= d < |s| ==> s[d] != '/';
  }

  /** An insertion that starts with two spaces, ends with a newline and holds no double slash. */
  predicate FrontInsertion(text: string) {
    |text| > 2 && text[0] == ' ' && text[1] == ' ' && text[|text| - 1] == '\n' && NoDoubleSlash(text)
  }

  lemma FrontAnchor(what: string)
    ensures var a := Anchor("  ", what); |a| > 4 && a[0] == ' ' && a[1] == ' ' && a[2] == '/' && a[3] == '/'
  {
  }

  /** The four characters every such anchor starts with do not begin in the insertion. */
  lemma FrontNotInInsertion(text: string, anchor: string, what: string, d: nat)
    requires FrontInsertion(text) && d < |text|
    ensures !Clash(Anchor("  ", what), text + anchor, d)
  {
    var a, block := Anchor("  ", what), text + anchor;
    FrontAnchor(what);
    if d + 3 < |text| {
      assert PairAt(text, d + 2, '/', '/');
      DifferAt(a, block, d, if text[d + 2] == '/' then 3 else 2);
    } else {
      DifferAt(a, block, d, |text| - 1 - d);
    }
  }

  lemma FrontKeepsClear(what: string, text: string, marker: string, what': string)
    requires FrontInsertion(text) && Spaced(what')
    ensures KeepsClear(PatchOp(Anchor("  ", what), text, marker), Anchor("  ", what'))
  {
    var a, block := Anchor("  ", what'), text + Anchor("  ", what);
    forall d | 0 <= d < |text| ensures !Clash(a, block, d) {
      FrontNotInInsertion(text, Anchor("  ", what), what', d);
    }
    AnchorSpaced(what');
    PairNeverInside(block, a);
  }

  lemma WizardInsertions(cc: string, lower: string, title: string)
    requires IsTag(cc) && IsTag(lower) && NoDoubleSlash(title)
    ensures FrontInsertion("  " + ("{ value: \"" + lower + "_basic\",") + (" label: " + title + " },\n"))
    ensures FrontInsertion("  " + (cc + ": \"" + lower + "_basic\",") + "\n")
  {
    TagNoSlash(cc);
    TagNoSlash(lower);
    assert NoDoubleSlash("  ") && NoDoubleSlash("{ value: \"") && NoDoubleSlash("_basic\",")
           && NoDoubleSlash(" label: ");
    assert NoDoubleSlash(" },\n") && NoDoubleSlash(": \"") && NoDoubleSlash("\n");
    SlashConcat("{ value: \"", lower);
    SlashConcat("{ value: \"" + lower, "_basic\",");
    SlashConcat(" label: ", title);
    SlashConcat(" label: " + title, " },\n");
    SlashConcat("  ", "{ value: \"" + lower + "_basic\",");
    SlashConcat("  " + ("{ value: \"" + lower + "_basic\","), " label: " + title + " },\n");
    SlashConcat(cc, ": \"");
    SlashConcat(cc + ": \"", lower);
    SlashConcat(cc + ": \"" + lower, "_basic\",");
    SlashConcat("  ", cc + ": \"" + lower + "_basic\",");
    SlashConcat("  " + (cc + ": \"" + lower + "_basic\","), "\n");
  }

  lemma FrontWords()
    ensures Spaced(COA_TEMPLATES) && Spaced(COA_DEFAULTS) && Spaced(LOCALE_DEFAULTS) && Spaced(LOCALES)
  {
  }

  /** The setup wizard's ops are settled when the quoted display name holds no double slash. */
  lemma FrontendWizardIsSettled(cc: string, lower: string, title: string)
    requires IsTag(cc) && IsTag(lower) && NoDoubleSlash(title)
    ensures Settled(FrontendWizardOps(cc, lower, title))
  {
    FrontendWizardIsWellBehaved(cc, lower, title);
    WizardInsertions(cc, lower, title);
    FrontWords();
    var ops := FrontendWizardOps(cc, lower, title);
    FrontKeepsClear(COA_TEMPLATES, ops[0].insertion, ops[0].skipIfPresent, COA_TEMPLATES);
    FrontKeepsClear(COA_TEMPLATES, ops[0].insertion, ops[0].skipIfPresent, COA_DEFAULTS);
    FrontKeepsClear(COA_DEFAULTS, ops[1].insertion, ops[1].skipIfPresent, COA_TEMPLATES);
    FrontKeepsClear(COA_DEFAULTS, ops[1].insertion, ops[1].skipIfPresent, COA_DEFAULTS);
  }

  lemma LocaleInsertions(cc: string, locale: string, name: string)
    requires IsTag(cc) && IsTag(locale) && NoDoubleSlash(name)
    ensures FrontInsertion("  " + (cc + ": \"" + locale + "\",") + "\n")
    ensures FrontInsertion("  { " + ("tag: \"" + locale + "\"") + (", name: " + name + ", direction: \"ltr\" },\n"))
  {
    TagNoSlash(cc);
    TagNoSlash(locale);
    assert NoDoubleSlash("  ") && NoDoubleSlash(": \"") && NoDoubleSlash("\",") && NoDoubleSlash("\n");
    assert NoDoubleSlash("  { ") && NoDoubleSlash("tag: \"") && NoDoubleSlash("\"") && NoDoubleSlash(", name: ");
    assert NoDoubleSlash(", direction: \"ltr\" },\n");
    SlashConcat(cc, ": \"");
    SlashConcat(cc + ": \"", locale);
    SlashConcat(cc + ": \"" + locale, "\",");
    SlashConcat("  ", cc + ": \"" + locale + "\",");
    SlashConcat("  " + (cc + ": \"" + locale + "\","), "\n");
    SlashConcat("tag: \"", locale);
    SlashConcat("tag: \"" + locale, "\"");
    SlashConcat(", name: ", name);
    SlashConcat(", name: " + name, ", direction: \"ltr\" },\n");
    SlashConcat("  { ", "tag: \"" + locale + "\"");
    SlashConcat("  { " + ("tag: \"" + locale + "\""), ", name: " + name + ", direction: \"ltr\" },\n");
  }

  /** The locale registry's ops are settled when the quoted locale name holds no double slash. */
  lemma LocalesAreSettled(cc: string, locale: string, name: string, registered: bool)
    requires IsTag(cc) && IsTag(locale) && NoDoubleSlash(name)
    ensures Settled(LocaleOps(cc, locale, name, registered))
  {
    LocalesAreWellBehaved(cc, locale, name, registered);
    LocaleInsertions(cc, locale, name);
    FrontWords();
    var ops := LocaleOps(cc, locale, name, registered);
    FrontKeepsClear(LOCALE_DEFAULTS, ops[0].insertion, ops[0].skipIfPresent, LOCALE_DEFAULTS);
    if !registered {
      FrontKeepsClear(LOCALE_DEFAULTS, ops[0].insertion, ops[0].skipIfPresent, LOCALES);
      FrontKeepsClear(LOCALES, ops[1].insertion, ops[1].skipIfPresent, LOCALE_DEFAULTS);
      FrontKeepsClear(LOCALES, ops[1].insertion, ops[1].skipIfPresent, LOCALES);
    }
  }

  // ------------------------------------------------------------------
  // A display name that holds an anchor
  // ------------------------------------------------------------------

  /** The quoted text of the second op's own marker line. */
  function AnchorAsName(): string { "\"" + Anchor("  ", COA_DEFAULTS) + "\"" }

  /**
   With such a name, whatever the file, the second insertion lands inside the first: the first op puts a copy
   of the second anchor before the real one.
   */
  lemma NameHoldingAnchor(start: string, cc: string, lower: string, p: nat)
    requires IsTag(cc) && IsTag(lower)
    requires var ops := FrontendWizardOps(cc, lower, AnchorAsName());
             && !Marked(start, ops[0]) && IndexFrom(start, ops[0].anchor, 0) == Some(p)
             && (forall r :: OccursAt(start, ops[1].anchor, r) ==> r >= p)
             && p <= |start| && !Marked(Insert(start, p, ops[0].insertion), ops[1])
    ensures var ops := FrontendWizardOps(cc, lower, AnchorAsName());
            var body := Insert(start, p, ops[0].insertion);
            exists at: nat :: p <= at < p + |ops[0].insertion| && at <= |body|
                              && PatchFirst(start, ops, 2) == Patched(Insert(body, at, ops[1].insertion), 2, 0)
  {
    var ops := FrontendWizardOps(cc, lower, AnchorAsName());
    var k := NameHolds(lower, AnchorAsName(), ops[1].anchor);
    FrontWords();
    AnchorSpaced(COA_DEFAULTS);
    PairNeverInside(ops[0].insertion + ops[0].anchor, ops[1].anchor);
    SecondLandsInFirst(start, ops, p, k);
  }

  lemma SecondLandsInFirst(start: string, ops: seq<PatchOp>, p: nat, k: nat)
    requires |ops| == 2 && !Marked(start, ops[0]) && IndexFrom(start, ops[0].anchor, 0) == Some(p) && p <= |start|
    requires k < |ops[0].insertion| && OccursAt(ops[0].insertion, ops[1].anchor, k)
    requires forall r :: OccursAt(start, ops[1].anchor, r) ==> r >= p
    requires NeverInside(ops[0].insertion + ops[0].anchor, ops[1].anchor)
    requires !Marked(Insert(start, p, ops[0].insertion), ops[1])
    ensures var body := Insert(start, p, ops[0].insertion);
            exists at: nat :: p <= at < p + |ops[0].insertion| && at <= |body|
                              && PatchFirst(start, ops, 2) == Patched(Insert(body, at, ops[1].insertion), 2, 0)
  {
    var text, a := ops[0].insertion, ops[1].anchor;
    var body := Insert(start, p, text);
    assert PatchFirst(start, ops, 0) == Patched(start, 0, 0);
    assert PatchFirst(start, ops, 1) == Patched(body, 1, 0);
    var q := Found(start, ops[0].anchor);
    assert body[p + k..p + k + |a|] == text[k..k + |a|];
    FirstIsInside(start, p, text, ops[0].anchor, a, k);
    var at := Found(body, a);
    assert PatchFirst(start, ops, 2) == Patched(Insert(body, at, ops[1].insertion), 2, 0);
  }

  /** The position of the anchor inside the first insertion. */
  lemma NameHolds(lower: string, title: string, a: string) returns (k: nat)
    requires title == "\"" + a + "\""
    ensures var text := "  " + ("{ value: \"" + lower + "_basic\",") + (" label: " + title + " },\n");
            OccursAt(text, a, k) && k < |text|
  {
    var before := "  " + ("{ value: \"" + lower + "_basic\",") + " label: \"";
    var text := "  " + ("{ value: \"" + lower + "_basic\",") + (" label: " + title + " },\n");
    k := |before|;
    assert text == before + a + "\" },\n";
  }

  /** The first occurrence after the insertion neither precedes it nor lies beyond the copy it holds. */
  lemma FirstIsInside(start: string, p: nat, text: string, anchor: string, a: string, k: nat)
    requires OccursAt(start, anchor, p) && k < |text| && OccursAt(Insert(start, p, text), a, p + k)
    requires (forall r :: OccursAt(start, a, r) ==> r >= p) && NeverInside(text + anchor, a)
    ensures var at := IndexFrom(Insert(start, p, text), a, 0); at.Some? && p <= at.value <= p + k
  {
    var body := Insert(start, p, text);
    IndexIsFirst(body, a, 0);
    var at := IndexFrom(body, a, 0).value;
    if at < p {
      if at + |a| <= p {
        assert start[at..at + |a|] == body[at..at + |a|];
        assert OccursAt(start, a, at);
      } else {
        BlockStands(start, p, PatchOp(anchor, text, ""));
        ClashInText(body, text + anchor, a, at, p - at);
      }
    }
  }

  // ------------------------------------------------------------------
  // wizard.go
  // ------------------------------------------------------------------

  predicate Tabless(s: string) { forall d :: 0 <= d < |s| ==> s[d] != '\t' }

  lemma TablessConcat(s: string, t: string)
    requires Tabless(s) && Tabless(t)
    ensures Tabless(s + t)
  {
  }

  /** No `//g` and no slash at the end. */
  predicate NoGo(s: string) { NoTriple(s, '/', '/', 'g') }

  lemma NoGoConcat(s: string, t: string)
    requires NoGo(s) && NoGo(t)
    ensures NoGo(s + t)
  {
    TripleConcat(s, t, '/', '/', 'g');
  }

  lemma BareNoGo(s: string)
    requires Bare(s)
    ensures NoGo(s) && Tabless(s)
  {
  }

  /** The words of the tabbed anchors hold neither slashes nor tabs. */
  predicate PlainKind(k: Kind) { GoodKind(k) && (k.Tabbed? ==> Bare(k.what)) }

  lemma PlainKinds()
    ensures PlainKind(Embed) && PlainKind(Tabbed(CHARTS)) && PlainKind(Tabbed(CHART_CASES))
            && PlainKind(Tabbed(LOCALE_CASES))
  {
    Words();
    BareWords();
  }

  lemma BareWords()
    ensures Bare(CHARTS) && Bare(CHART_CASES) && Bare(LOCALE_CASES)
  {
  }

  lemma HeadPieces()
    ensures Bare(SCAFFOLD) && Bare(TAIL) && Bare(DIRECTIVES) && NoGo(INSERTS) && Tabless(INSERTS)
    ensures NoGo("//" + SCAFFOLD) && NoGo("/" + SCAFFOLD)
  {
    InsertsNoGo();
    assert Bare(SCAFFOLD) && Bare(TAIL) && Bare(DIRECTIVES);
    assert SCAFFOLD[0] == ' ';
    SlashesThenBare(SCAFFOLD);
  }

  lemma InsertsNoGo()
    ensures NoGo(INSERTS) && Tabless(INSERTS)
  {
    var rest := "new-tax-pack inserts new";
    assert Bare(rest);
    assert INSERTS == "/" + rest;
    SlashesThenBare(rest);
  }

  lemma SlashesThenBare(s: string)
    requires Bare(s) && s != "" && s[0] != 'g'
    ensures NoGo("/" + s) && NoGo("//" + s) && Tabless("/" + s)
  {
    var t, u := "/" + s, "//" + s;
    assert forall d :: 1 <= d < |t| ==> t[d] == s[d - 1];
    assert forall d :: 2 <= d < |u| ==> u[d] == s[d - 2];
  }

  lemma AnchorTabless(k: Kind)
    requires PlainKind(k)
    ensures AnchorOf(k) != "" && Tabless(AnchorOf(k)[1..])
  {
    HeadPieces();
    BareNoGo(SCAFFOLD);
    BareNoGo(TAIL);
    TablessConcat(SCAFFOLD, INSERTS);
    if k.Embed? {
      BareNoGo(DIRECTIVES);
      assert Tabless(GO_EMBED);
      TablessConcat(GO_EMBED, DIRECTIVES);
      TablessAnchor("", EMBEDS);
    } else {
      BareNoGo(k.what);
      TablessAnchor("\t", k.what);
    }
  }

  lemma TablessAnchor(indent: string, what: string)
    requires (indent == "" || indent == "\t") && Tabless(HEAD) && Tabless(what) && Tabless(TAIL)
    ensures Anchor(indent, what) != "" && Tabless(Anchor(indent, what)[1..])
  {
    var rest := "//" + HEAD + what + TAIL;
    TablessConcat("//", HEAD);
    TablessConcat("//" + HEAD, what);
    TablessConcat("//" + HEAD + what, TAIL);
    assert Anchor(indent, what) == indent + rest;
  }

  /** An insertion that begins with a tab and something other than a slash cannot begin inside an anchor. */
  lemma TabNeverInside(block: string, k: Kind)
    requires PlainKind(k) && |block| > 1 && block[0] == '\t'
    ensures NeverInside(block, AnchorOf(k))
  {
    AnchorTabless(k);
    PairNeverInside(block, AnchorOf(k));
  }

  const EMBED_START: string := "//go:embed coa_templates"

  lemma TabbedNoGo(what: string)
    requires Bare(what)
    ensures Anchor("\t", what) != "" && NoGo(Anchor("\t", what)[1..])
  {
    HeadPieces();
    BareNoGo(what);
    BareNoGo(TAIL);
    NoGoConcat("//" + SCAFFOLD, INSERTS);
    NoGoConcat("//" + SCAFFOLD + INSERTS, what);
    NoGoConcat("//" + SCAFFOLD + INSERTS + what, TAIL);
    BehindTab(SCAFFOLD, INSERTS, what, TAIL);
  }

  lemma BehindTab(a: string, b: string, c: string, d: string)
    ensures ("\t" + "//" + (a + b) + c + d)[1..] == "//" + a + b + c + d
  {
  }

  /** Nor can the embed directive, which no tabbed anchor spells, inside one of those. */
  lemma DirectiveNotInTabbed(block: string, what: string)
    requires EMBED_START <= block && Bare(what)
    ensures NeverInside(block, Anchor("\t", what))
  {
    var a := Anchor("\t", what);
    TabbedNoGo(what);
    DirectiveHead(block);
    forall d | 0 < d < |a| ensures !Clash(block, a, d) {
      TripleNeverInside(block, a, 1, d);
    }
  }

  lemma DirectiveHead(block: string)
    requires EMBED_START <= block
    ensures |block| > 11 && block[0] == '/' && block[1] == '/' && block[2] == 'g' && block[11] == 'c'
  {
  }

  /** Two texts without `//g`, joined so that it appears once, where the block goes on differently. */
  lemma OnceAndDifferent(block: string, front: string, back: string)
    requires |block| > 11 && block[0] == '/' && block[1] == '/' && block[2] == 'g'
    requires NoGo(front) && NoGo(back) && |back| > 10 && back[10] != block[11]
    ensures NeverInside(block, "/" + front + "/" + back)
  {
    var a, pos := "/" + front + "/" + back, 1 + |front|;
    forall d | 0 < d < |a| ensures !Clash(block, a, d) {
      if d < pos {
        assert TripleAt(front, d - 1, '/', '/', 'g');
        DifferAt(block, a, d, if a[d] != '/' then 0 else if a[d + 1] != '/' then 1 else 2);
      } else if d == pos {
        DifferAt(block, a, d, 11);
      } else {
        assert a[pos + 1..] == back;
        TripleNeverInside(block, a, pos + 1, d);
      }
    }
  }

  /** In the embed anchor itself the directive starts once, and goes on differently. */
  lemma DirectiveNotInEmbed(block: string)
    requires EMBED_START <= block
    ensures NeverInside(block, Anchor("", EMBEDS))
  {
    EmbedHalves();
    DirectiveHead(block);
    EmbedTail();
    OnceAndDifferent(block, "/" + SCAFFOLD + INSERTS + " ", "/go:embed" + DIRECTIVES + TAIL);
    EmbedParts(SCAFFOLD, INSERTS, DIRECTIVES, TAIL);
  }

  lemma EmbedTail()
    ensures var back := "/go:embed" + DIRECTIVES + TAIL; |back| > 10 && back[10] == 'd'
  {
    assert DIRECTIVES[1] == 'd';
  }

  lemma EmbedParts(a: string, b: string, c: string, d: string)
    ensures "" + "//" + (a + b) + (" //go:embed" + c) + d == "/" + ("/" + a + b + " ") + "/" + ("/go:embed" + c + d)
  {
    assert " //go:embed" == " " + "/" + "/go:embed";
  }

  lemma EmbedHalves()
    ensures NoGo("/" + SCAFFOLD + INSERTS + " ") && NoGo("/go:embed" + DIRECTIVES + TAIL)
  {
    HeadPieces();
    assert NoGo(" ") && NoGo("/go:embed");
    NoGoConcat("/" + SCAFFOLD, INSERTS);
    NoGoConcat("/" + SCAFFOLD + INSERTS, " ");
    BareNoGo(DIRECTIVES);
    BareNoGo(TAIL);
    NoGoConcat("/go:embed", DIRECTIVES);
    NoGoConcat("/go:embed" + DIRECTIVES, TAIL);
  }

  /** A quiet insertion that starts with a tab, or with the embed directive. */
  predicate WizardInsertion(text: string) {
    |text| > 1 && Quiet(text) && (text[0] == '\t' || EMBED_START <= text)
  }

  lemma BlockNeverInside(block: string, k: Kind)
    requires PlainKind(k) && |block| > 1 && (block[0] == '\t' || EMBED_START <= block)
    ensures NeverInside(block, AnchorOf(k))
  {
    if block[0] == '\t' {
      TabNeverInside(block, k);
    } else if k.Embed? {
      DirectiveNotInEmbed(block);
    } else {
      DirectiveNotInTabbed(block, k.what);
    }
  }

  lemma KindNotInInsertion(text: string, anchor: string, k: Kind, d: nat)
    requires Quiet(text) && d < |text|
    ensures !Clash(AnchorOf(k), text + anchor, d)
  {
    var a, block := AnchorOf(k), text + anchor;
    if k.Embed? {
      assert SCAFFOLD[0] == ' ';
      assert a[0] == '/' && a[1] == '/' && a[2] == ' ';
      assert TripleAt(text, d, '/', '/', ' ');
      DifferAt(a, block, d, if text[d] != '/' then 0 else if text[d + 1] != '/' then 1 else 2);
    } else {
      assert a[0] == '\t' && a[1] == '/';
      assert PairAt(text, d, '\t', '/');
      DifferAt(a, block, d, if text[d] != '\t' then 0 else 1);
    }
  }

  lemma WizardKeepsClear(op: PatchOp, k: Kind)
    requires PlainKind(k) && WizardInsertion(op.insertion)
    ensures KeepsClear(op, AnchorOf(k))
  {
    var text := op.insertion;
    forall d | 0 <= d < |text| ensures !Clash(AnchorOf(k), text + op.anchor, d) {
      KindNotInInsertion(text, op.anchor, k, d);
    }
    BlockNeverInside(text + op.anchor, k);
  }

  lemma EmbedInsertion(cc: string, lower: string)
    requires IsTag(cc) && IsTag(lower)
    ensures WizardInsertion("" + EmbedMarker(lower) + ("\nvar coa" + cc + "Basic []byte\n\n"))
  {
    var marker, after := EmbedMarker(lower), "\nvar coa" + cc + "Basic []byte\n\n";
    EmbedMarkerQuiet(lower);
    QuietBehindSlash(marker);
    TagQuiet(cc);
    assert Quiet("\nvar coa") && Quiet("Basic []byte\n\n");
    QuietConcat("\nvar coa", cc);
    QuietConcat("\nvar coa" + cc, "Basic []byte\n\n");
    QuietConcat(marker, after);
    assert "" + marker + after == marker + after;
    assert EMBED_START == "//go:embed" + " coa_templates";
    assert EMBED_START <= marker;
  }

  /** A marker quiet behind its first slash is quiet if no `// ` stands at its start. */
  lemma QuietBehindSlash(m: string)
    requires |m| > 2 && m[0] == '/' && m[1] == '/' && m[2] == 'g' && Quiet(m[1..])
    ensures Quiet(m)
  {
    forall d | 0 <= d < |m| ensures PairAt(m, d, '\t', '/') && TripleAt(m, d, '/', '/', ' ') {
      if d > 0 {
        assert PairAt(m[1..], d - 1, '\t', '/') && TripleAt(m[1..], d - 1, '/', '/', ' ');
      }
    }
  }

  lemma TabbedInsertion(marker: string, after: string)
    requires marker != "" && marker[0] != '/' && marker[0] != '\t' && Quiet(marker) && Quiet(after)
    ensures WizardInsertion("\t" + marker + after)
  {
    QuietConcat(marker, after);
    var rest, text := marker + after, "\t" + marker + after;
    assert text == "\t" + rest;
    forall d | 0 <= d < |text| ensures PairAt(text, d, '\t', '/') && TripleAt(text, d, '/', '/', ' ') {
      if d > 0 {
        assert PairAt(rest, d - 1, '\t', '/') && TripleAt(rest, d - 1, '/', '/', ' ');
      }
    }
  }

  lemma WizardInsertionsQualify(cc: string, lower: string, locale: string)
    requires IsTag(cc) && IsTag(lower) && (locale == "" || IsTag(locale))
    ensures forall i :: 0 <= i < |WizardOps(cc, lower, locale)| ==>
              WizardInsertion(WizardOps(cc, lower, locale)[i].insertion)
  {
    EmbedInsertion(cc, lower);
    assert Quiet("\n") && Quiet("") && Quiet("_basic");
    ChartMarkerQuiet(cc, lower);
    TabbedInsertion(ChartMarker(cc, lower), "\n");
    TagQuiet(lower);
    QuietConcat(lower, "_basic");
    CaseMarkerQuiet(cc, lower + "_basic");
    TabbedInsertion(CaseMarker(cc, lower + "_basic"), "\n");
    if locale != "" {
      TagQuiet(locale);
      CaseMarkerQuiet(cc, locale);
      TabbedInsertion(CaseMarker(cc, locale) + "\n", "");
    }
  }

  /** The kinds of the ops, in order. */
  function WizardKinds(locale: string): seq<Kind> {
    [Embed, Tabbed(CHARTS), Tabbed(CHART_CASES)] + (if locale == "" then [] else [Tabbed(LOCALE_CASES)])
  }

  /**
   The ops for wizard.go are settled for every country code and locale: each insertion stands before its own
   anchor.
   */
  lemma WizardIsSettled(cc: string, lower: string, locale: string)
    requires IsTag(cc) && IsTag(lower) && (locale == "" || IsTag(locale))
    ensures Settled(WizardOps(cc, lower, locale))
  {
    var ops, kinds := WizardOps(cc, lower, locale), WizardKinds(locale);
    WizardIsWellBehaved(cc, lower, locale);
    WizardInsertionsQualify(cc, lower, locale);
    PlainKinds();
    assert |kinds| == |ops| && forall j :: 0 <= j < |ops| ==>
             ops[j].anchor == AnchorOf(kinds[j]) && PlainKind(kinds[j]);
    forall i, j | 0 <= i < |ops| && 0 <= j < |ops| ensures KeepsClear(ops[i], ops[j].anchor) {
      WizardKeepsClear(ops[i], kinds[j]);
    }
  }
}
