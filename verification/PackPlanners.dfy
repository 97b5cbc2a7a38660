/**
 The ops the scaffold's planners queue, for any country code, locale and display names, and the proof that
 they are well behaved: each marks itself, and no anchor can begin inside another anchor or a marker.
 */
module PackPlanners {
  import opened Common
  import opened TextPatch
  import opened PatchPlan

  /** A country code, in either case, or a locale tag: letters and hyphens. */
  predicate IsTag(s: string) {
    s != "" && forall i :: 0 <= i < |s| ==> 'a' <= s[i] <= 'z' || 'A' <= s[i] <= 'Z' || s[i] == '-'
  }

  const SCAFFOLD: string := " SCAFFOLD: cmd"
  const INSERTS: string := "/new-tax-pack inserts new"
  const HEAD: string := SCAFFOLD + INSERTS
  const TAIL: string := " above this line."

  /** A marker line of a source file; `what` starts with a space. */
  function Anchor(indent: string, what: string): string { indent + "//" + HEAD + what + TAIL }

  const GO_EMBED: string := " //go:embed"
  const DIRECTIVES: string := " directives + var decls"
  const EMBEDS: string := GO_EMBED + DIRECTIVES
  const CHARTS: string := " chartOfAccountsTemplates entries"
  const CHART_CASES: string := " DefaultCoATemplateForCountry cases"
  const LOCALE_CASES: string := " DefaultLocaleForCountry cases"
  const COA_TEMPLATES: string := " COA_TEMPLATES entries"
  const COA_DEFAULTS: string := " COUNTRY_COA_DEFAULTS entries"
  const LOCALE_DEFAULTS: string := " COUNTRY_LOCALE_DEFAULTS entries"
  const LOCALES: string := " SupportedLocales entries"

  /** An op whose insertion is its marker with something before and after it. */
  function Op(anchor: string, before: string, marker: string, after: string): PatchOp {
    PatchOp(anchor, before + marker + after, marker)
  }

  function EmbedMarker(lower: string): string { "//go:embed" + " coa_templates" + ("/" + lower) + "_basic.json" }

  function ChartMarker(cc: string, lower: string): string { "\"" + lower + "_basic\": coa" + cc + "Basic," }

  function CaseMarker(cc: string, result: string): string { "case \"" + cc + "\":\n\t\treturn \"" + result + "\"" }

  /** internal/tenant/wizard.go: embed, chart entry, chart case, and the locale case when a locale is given. */
  function WizardOps(cc: string, lower: string, locale: string): seq<PatchOp> {
    [Op(Anchor("", EMBEDS), "", EmbedMarker(lower), "\nvar coa" + cc + "Basic []byte\n\n"),
     Op(Anchor("\t", CHARTS), "\t", ChartMarker(cc, lower), "\n"),
     Op(Anchor("\t", CHART_CASES), "\t", CaseMarker(cc, lower + "_basic"), "\n")]
    + (if locale == "" then [] else [Op(Anchor("\t", LOCALE_CASES), "\t", CaseMarker(cc, locale) + "\n", "")])
  }

  /** The setup wizard of the web client; `title` is the quoted display name. */
  function FrontendWizardOps(cc: string, lower: string, title: string): seq<PatchOp> {
    [Op(Anchor("  ", COA_TEMPLATES), "  ", "{ value: \"" + lower + "_basic\",", " label: " + title + " },\n"),
     Op(Anchor("  ", COA_DEFAULTS), "  ", cc + ": \"" + lower + "_basic\",", "\n")]
  }

  /** The locale registry of the web client; the second op only when the locale is not registered yet. */
  function LocaleOps(cc: string, locale: string, name: string, registered: bool): seq<PatchOp> {
    [Op(Anchor("  ", LOCALE_DEFAULTS), "  ", cc + ": \"" + locale + "\",", "\n")]
    + (if registered then []
       else [Op(Anchor("  ", LOCALES), "  { ", "tag: \"" + locale + "\"",
                ", name: " + name + ", direction: \"ltr\" },\n")])
  }

  // ------------------------------------------------------------------
  // Character pairs
  // ------------------------------------------------------------------

  predicate PairAt(s: string, d: int, x: char, y: char) {
    0 <= d < |s| && s[d] == x ==> d + 1 < |s| && s[d + 1] != y
  }

  /** Every `x` is followed by a character other than `y`. */
  predicate NoPair(s: string, x: char, y: char) {
    forall d {:trigger PairAt(s, d, x, y)} :: 0 <= d < |s| ==> PairAt(s, d, x, y)
  }

  predicate TripleAt(s: string, d: int, x: char, y: char, z: char) {
    0 <= d < |s| && s[d] == x ==> d + 1 < |s| && (s[d + 1] == y ==> d + 2 < |s| && s[d + 2] != z)
  }

  /** Every `x` is followed by a character, and every `xy` by one other than `z`. */
  predicate NoTriple(s: string, x: char, y: char, z: char) {
    forall d {:trigger TripleAt(s, d, x, y, z)} :: 0 <= d < |s| ==> TripleAt(s, d, x, y, z)
  }

  lemma PairConcat(s: string, t: string, x: char, y: char)
    requires NoPair(s, x, y) && NoPair(t, x, y)
    ensures NoPair(s + t, x, y)
  {
    forall d | 0 <= d < |s + t| ensures PairAt(s + t, d, x, y) {
      assert if d < |s| then PairAt(s, d, x, y) else PairAt(t, d - |s|, x, y);
    }
  }

  lemma TripleConcat(s: string, t: string, x: char, y: char, z: char)
    requires NoTriple(s, x, y, z) && NoTriple(t, x, y, z)
    ensures NoTriple(s + t, x, y, z)
  {
    forall d | 0 <= d < |s + t| ensures TripleAt(s + t, d, x, y, z) {
      assert if d < |s| then TripleAt(s, d, x, y, z) else TripleAt(t, d - |s|, x, y, z);
    }
  }

  /** Two texts that differ at a common offset do not clash. */
  lemma DifferAt(a: string, b: string, d: nat, m: nat)
    requires m < |a| && d + m < |b| && b[d + m] != a[m]
    ensures !Clash(a, b, d)
  {
    assert b[d..][m] == b[d + m];
  }

  lemma PairNeverInside(a: string, b: string)
    requires |a| >= 2 && b != "" && NoPair(b[1..], a[0], a[1])
    ensures NeverInside(a, b)
  {
    forall d | 0 < d < |b| ensures !Clash(a, b, d) {
      assert PairAt(b[1..], d - 1, a[0], a[1]);
      DifferAt(a, b, d, if b[d] != a[0] then 0 else 1);
    }
  }

  /** From offset `from` on. */
  lemma TripleNeverInside(a: string, b: string, from: nat, d: nat)
    requires |a| >= 3 && from <= d < |b| && NoTriple(b[from..], a[0], a[1], a[2])
    ensures !Clash(a, b, d)
  {
    assert TripleAt(b[from..], d - from, a[0], a[1], a[2]);
    DifferAt(a, b, d, if b[d] != a[0] then 0 else if b[d + 1] != a[1] then 1 else 2);
  }

  lemma OpMarksItself(anchor: string, before: string, marker: string, after: string)
    requires anchor != "" && marker != ""
    ensures MarksItself(Op(anchor, before, marker, after))
  {
    var text := before + marker + after;
    assert text[|before|..|before| + |marker|] == marker;
    Finds(text, marker, |before|);
  }

  // ------------------------------------------------------------------
  // Anchors indented by two spaces
  // ------------------------------------------------------------------

  predicate Spaced(s: string) { NoPair(s, ' ', ' ') }

  lemma TagSpaced(s: string)
    requires IsTag(s)
    ensures Spaced(s)
  {
    assert forall d :: 0 <= d < |s| ==> s[d] != ' ';
  }

  lemma SpacedConcat(s: string, t: string)
    requires Spaced(s) && Spaced(t)
    ensures Spaced(s + t)
  {
    PairConcat(s, t, ' ', ' ');
  }

  lemma AnchorSpaced(what: string)
    requires Spaced(what)
    ensures |Anchor("  ", what)| > 2 && Anchor("  ", what)[0] == ' ' && Anchor("  ", what)[1] == ' '
    ensures Spaced(Anchor("  ", what)[1..])
  {
    HeadSpaced();
    FourSpaced(" //", HEAD, what, TAIL);
    BehindFirst(HEAD, what, TAIL);
  }

  lemma FourSpaced(a: string, b: string, c: string, d: string)
    requires Spaced(a) && Spaced(b) && Spaced(c) && Spaced(d)
    ensures Spaced(a + b + c + d)
  {
    SpacedConcat(a, b);
    SpacedConcat(a + b, c);
    SpacedConcat(a + b + c, d);
  }

  lemma BehindFirst(b: string, c: string, d: string)
    ensures ("  " + "//" + b + c + d)[1..] == " //" + b + c + d
  {
  }

  lemma HeadSpaced()
    ensures Spaced(HEAD) && Spaced(TAIL) && Spaced(" //")
  {
    assert Spaced(SCAFFOLD) && Spaced(INSERTS);
    SpacedConcat(SCAFFOLD, INSERTS);
  }

  /** Neither an anchor nor a single-spaced marker has room for a two-space anchor inside it. */
  lemma TwoSpaceSpares(what: string, before: string, m: string, after: string, what': string, before': string,
                       m': string, after': string)
    requires Spaced(what) && Spaced(what') && Spaced(m') && m' != ""
    ensures Spares(Op(Anchor("  ", what), before, m, after), Op(Anchor("  ", what'), before', m', after'))
  {
    AnchorSpaced(what);
    AnchorSpaced(what');
    PairNeverInside(Anchor("  ", what), Anchor("  ", what'));
    forall d | 0 <= d < |m'[1..]| ensures PairAt(m'[1..], d, ' ', ' ') {
      assert PairAt(m', d + 1, ' ', ' ');
    }
    PairNeverInside(Anchor("  ", what), m');
  }

  lemma FrontendWizardIsWellBehaved(cc: string, lower: string, title: string)
    requires IsTag(cc) && IsTag(lower)
    ensures WellBehaved(FrontendWizardOps(cc, lower, title))
  {
    var m1, m2 := "{ value: \"" + lower + "_basic\",", cc + ": \"" + lower + "_basic\",";
    TagSpaced(cc);
    TagSpaced(lower);
    assert Spaced("{ value: \"") && Spaced("_basic\",") && Spaced(": \"");
    SpacedConcat("{ value: \"", lower);
    SpacedConcat("{ value: \"" + lower, "_basic\",");
    SpacedConcat(cc, ": \"");
    SpacedConcat(cc + ": \"", lower);
    SpacedConcat(cc + ": \"" + lower, "_basic\",");
    assert Spaced(COA_TEMPLATES) && Spaced(COA_DEFAULTS);
    TwoWellBehaved(COA_TEMPLATES, "  ", m1, " label: " + title + " },\n", COA_DEFAULTS, "  ", m2, "\n");
  }

  lemma LocalesAreWellBehaved(cc: string, locale: string, name: string, registered: bool)
    requires IsTag(cc) && IsTag(locale)
    ensures WellBehaved(LocaleOps(cc, locale, name, registered))
  {
    var m1, m2 := cc + ": \"" + locale + "\",", "tag: \"" + locale + "\"";
    TagSpaced(cc);
    TagSpaced(locale);
    assert Spaced(": \"") && Spaced("\",") && Spaced("tag: \"") && Spaced("\"");
    SpacedConcat(cc, ": \"");
    SpacedConcat(cc + ": \"", locale);
    SpacedConcat(cc + ": \"" + locale, "\",");
    SpacedConcat("tag: \"", locale);
    SpacedConcat("tag: \"" + locale, "\"");
    assert Spaced(LOCALE_DEFAULTS) && Spaced(LOCALES);
    var after := ", name: " + name + ", direction: \"ltr\" },\n";
    TwoWellBehaved(LOCALE_DEFAULTS, "  ", m1, "\n", LOCALES, "  { ", m2, after);
    var ops := [Op(Anchor("  ", LOCALE_DEFAULTS), "  ", m1, "\n"), Op(Anchor("  ", LOCALES), "  { ", m2, after)];
    assert LocaleOps(cc, locale, name, registered) == if registered then ops[..1] else ops;
  }

  /** One or both of two such ops. */
  lemma TwoWellBehaved(what: string, before: string, m: string, after: string, what': string, before': string,
                       m': string, after': string)
    requires Spaced(what) && Spaced(what') && Spaced(m) && Spaced(m') && m != "" && m' != ""
    ensures var ops := [Op(Anchor("  ", what), before, m, after), Op(Anchor("  ", what'), before', m', after')];
            WellBehaved(ops) && WellBehaved(ops[..1])
  {
    AnchorSpaced(what);
    AnchorSpaced(what');
    OpMarksItself(Anchor("  ", what), before, m, after);
    OpMarksItself(Anchor("  ", what'), before', m', after');
    TwoSpaceSpares(what, before, m, after, what, before, m, after);
    TwoSpaceSpares(what, before, m, after, what', before', m', after');
    TwoSpaceSpares(what', before', m', after', what, before, m, after);
    TwoSpaceSpares(what', before', m', after', what', before', m', after');
  }

  // ------------------------------------------------------------------
  // The anchors of wizard.go
  // ------------------------------------------------------------------

  /** No tab before a slash after the first character: no tabbed anchor begins inside. */
  predicate Untabbed(s: string) { NoPair(s, '\t', '/') }

  /** No `// ` : the unindented anchor does not begin inside. */
  predicate Unslashed(s: string) { NoTriple(s, '/', '/', ' ') }

  predicate Quiet(s: string) { Untabbed(s) && Unslashed(s) }

  lemma QuietConcat(s: string, t: string)
    requires Quiet(s) && Quiet(t)
    ensures Quiet(s + t)
  {
    PairConcat(s, t, '\t', '/');
    TripleConcat(s, t, '/', '/', ' ');
  }

  lemma TagQuiet(s: string)
    requires IsTag(s)
    ensures Quiet(s) && Quiet("/" + s)
  {
    var t := "/" + s;
    assert forall d :: 0 <= d < |s| ==> s[d] != '/' && s[d] != '\t';
    assert forall d :: 1 <= d < |t| ==> t[d] == s[d - 1];
  }

  /** A text without slashes and tabs. */
  predicate Bare(s: string) { forall d :: 0 <= d < |s| ==> s[d] != '/' && s[d] != '\t' }

  lemma BareQuiet(s: string)
    requires Bare(s)
    ensures Quiet(s)
  {
  }

  lemma InsertsQuiet()
    ensures Quiet(INSERTS)
  {
    var rest := "new-tax-pack inserts new";
    assert Bare(rest);
    BareAfterSlash(rest);
    assert INSERTS == "/" + rest;
  }

  lemma HeadQuiet()
    ensures Quiet("/" + HEAD) && Quiet(TAIL)
  {
    assert Bare(TAIL) && Bare(SCAFFOLD);
    BareQuiet(TAIL);
    BareAfterSlash(SCAFFOLD);
    InsertsQuiet();
    QuietConcat("/" + SCAFFOLD, INSERTS);
    assert "/" + HEAD == ("/" + SCAFFOLD) + INSERTS;
  }

  lemma BareAfterSlash(s: string)
    requires Bare(s) && s != ""
    ensures Quiet("/" + s)
  {
    var t := "/" + s;
    assert forall d :: 1 <= d < |t| ==> t[d] == s[d - 1];
  }

  /** All that follows the first slash of an anchor. */
  lemma AnchorQuiet(indent: string, what: string, from: nat)
    requires Quiet(what) && from == |indent| + 1
    ensures from <= |Anchor(indent, what)| && Quiet(Anchor(indent, what)[from..])
  {
    HeadQuiet();
    QuietConcat("/" + HEAD, what);
    QuietConcat("/" + HEAD + what, TAIL);
    assert Anchor(indent, what)[from..] == "/" + HEAD + what + TAIL;
  }

  lemma QuietTail(b: string)
    requires Quiet(b) && b != ""
    ensures Quiet(b[1..])
  {
    forall d | 0 <= d < |b[1..]| ensures PairAt(b[1..], d, '\t', '/') && TripleAt(b[1..], d, '/', '/', ' ') {
      assert PairAt(b, d + 1, '\t', '/') && TripleAt(b, d + 1, '/', '/', ' ');
    }
  }

  lemma EmbedIsSilent(b: string)
    requires b != "" && Quiet(b[1..])
    ensures NeverInside(Anchor("", EMBEDS), b)
  {
    var a := Anchor("", EMBEDS);
    assert SCAFFOLD[0] == ' ';
    assert a[0] == '/' && a[1] == '/' && a[2] == ' ';
    forall d | 0 < d < |b| ensures !Clash(a, b, d) {
      TripleNeverInside(a, b, 1, d);
    }
  }

  lemma TabbedIsSilent(what: string, b: string)
    requires b != "" && Quiet(b[1..])
    ensures NeverInside(Anchor("\t", what), b)
  {
    var a := Anchor("\t", what);
    assert a[0] == '\t' && a[1] == '/';
    PairNeverInside(a, b);
  }

  /** Tabbed anchors hold `// ` right after the tab; there the two anchors differ in the word after `new`. */
  lemma EmbedNotInTabbed(what: string)
    requires Quiet(what) && |what| > 1 && what[1] != '/'
    ensures NeverInside(Anchor("", EMBEDS), Anchor("\t", what))
  {
    var a, b := Anchor("", EMBEDS), Anchor("\t", what);
    assert SCAFFOLD[0] == ' ';
    assert a[0] == '/' && a[1] == '/' && a[2] == ' ';
    AnchorQuiet("\t", what, 2);
    forall d | 0 < d < |b| ensures !Clash(a, b, d) {
      if d == 1 {
        var m := 2 + |HEAD| + 1;
        assert a[m] == EMBEDS[1] == '/';
        assert b[1 + m] == what[1];
        DifferAt(a, b, 1, m);
      } else {
        TripleNeverInside(a, b, 2, d);
      }
    }
  }

  lemma TabbedNotInTabbed(what: string, what': string)
    requires Quiet(what')
    ensures NeverInside(Anchor("\t", what), Anchor("\t", what'))
  {
    var a, b := Anchor("\t", what), Anchor("\t", what');
    assert a[0] == '\t' && a[1] == '/';
    AnchorQuiet("\t", what', 2);
    forall d | 0 <= d < |b[1..]| ensures PairAt(b[1..], d, '\t', '/') {
      assert b[1] == '/';
      assert d > 0 ==> PairAt(b[2..], d - 1, '\t', '/');
    }
    PairNeverInside(a, b);
  }

  /** What the planner's four kinds of words look like. */
  predicate Word(what: string) { Quiet(what) && |what| > 1 && what[1] != '/' }

  lemma Words()
    ensures Word(CHARTS) && Word(CHART_CASES) && Word(LOCALE_CASES) && Quiet(EMBEDS)
  {
    assert Bare(CHARTS) && CHARTS[1] == 'c';
    BareQuiet(CHARTS);
    assert Bare(CHART_CASES) && CHART_CASES[1] == 'D';
    BareQuiet(CHART_CASES);
    assert Bare(LOCALE_CASES) && LOCALE_CASES[1] == 'D';
    BareQuiet(LOCALE_CASES);
    assert Bare(DIRECTIVES);
    BareQuiet(DIRECTIVES);
    assert Quiet(GO_EMBED);
    QuietConcat(GO_EMBED, DIRECTIVES);
  }

  lemma EmbedPieces()
    ensures Quiet("/go:embed") && Quiet(" coa_templates") && Quiet("_basic.json")
  {
    assert Bare(" coa_templates") && Bare("_basic.json");
    BareQuiet(" coa_templates");
    BareQuiet("_basic.json");
  }

  lemma EmbedMarkerQuiet(lower: string)
    requires IsTag(lower)
    ensures EmbedMarker(lower) != "" && Quiet(EmbedMarker(lower)[1..])
  {
    TagQuiet(lower);
    EmbedPieces();
    QuietConcat("/go:embed", " coa_templates");
    QuietConcat("/go:embed" + " coa_templates", "/" + lower);
    QuietConcat("/go:embed" + " coa_templates" + ("/" + lower), "_basic.json");
    assert EmbedMarker(lower)[1..] == "/go:embed" + " coa_templates" + ("/" + lower) + "_basic.json";
  }

  lemma ChartMarkerQuiet(cc: string, lower: string)
    requires IsTag(cc) && IsTag(lower)
    ensures ChartMarker(cc, lower) != "" && Quiet(ChartMarker(cc, lower))
  {
    TagQuiet(cc);
    TagQuiet(lower);
    assert Quiet("\"") && Quiet("_basic\": coa") && Quiet("Basic,");
    QuietConcat("\"", lower);
    QuietConcat("\"" + lower, "_basic\": coa");
    QuietConcat("\"" + lower + "_basic\": coa", cc);
    QuietConcat("\"" + lower + "_basic\": coa" + cc, "Basic,");
  }

  lemma CaseMarkerQuiet(cc: string, result: string)
    requires IsTag(cc) && Quiet(result)
    ensures CaseMarker(cc, result) != "" && Quiet(CaseMarker(cc, result)) && Quiet(CaseMarker(cc, result) + "\n")
  {
    TagQuiet(cc);
    assert Quiet("case \"") && Quiet("\":\n\t\treturn \"") && Quiet("\"") && Quiet("\n");
    QuietConcat("case \"", cc);
    QuietConcat("case \"" + cc, "\":\n\t\treturn \"");
    QuietConcat("case \"" + cc + "\":\n\t\treturn \"", result);
    QuietConcat("case \"" + cc + "\":\n\t\treturn \"" + result, "\"");
    QuietConcat(CaseMarker(cc, result), "\n");
  }

  /** The two shapes of anchor in wizard.go. */
  datatype Kind = Embed | Tabbed(what: string)

  function AnchorOf(k: Kind): string { if k.Embed? then Anchor("", EMBEDS) else Anchor("\t", k.what) }

  predicate GoodKind(k: Kind) { k.Tabbed? ==> Word(k.what) }

  /** An op of wizard.go: an anchor of one of these shapes, and a marker in which no anchor can begin. */
  ghost predicate WizardOp(op: PatchOp) {
    && (exists k :: GoodKind(k) && op.anchor == AnchorOf(k))
    && op.skipIfPresent != "" && Quiet(op.skipIfPresent[1..])
  }

  lemma EmbedAnchorQuiet()
    ensures AnchorOf(Embed) != "" && Quiet(AnchorOf(Embed)[1..])
  {
    Words();
    AnchorQuiet("", EMBEDS, 1);
  }

  lemma KindsSpare(a: Kind, b: Kind)
    requires GoodKind(a) && GoodKind(b)
    ensures NeverInside(AnchorOf(a), AnchorOf(b))
  {
    if b.Embed? {
      EmbedAnchorQuiet();
      KindSparesQuiet(a, AnchorOf(b));
    } else if a.Embed? {
      EmbedNotInTabbed(b.what);
    } else {
      TabbedNotInTabbed(a.what, b.what);
    }
  }

  lemma KindSparesQuiet(a: Kind, b: string)
    requires b != "" && Quiet(b[1..])
    ensures NeverInside(AnchorOf(a), b)
  {
    if a.Embed? {
      EmbedIsSilent(b);
    } else {
      TabbedIsSilent(a.what, b);
    }
  }

  lemma WizardOpsSpare(a: PatchOp, b: PatchOp)
    requires WizardOp(a) && WizardOp(b)
    ensures Spares(a, b)
  {
    var k :| GoodKind(k) && a.anchor == AnchorOf(k);
    var l :| GoodKind(l) && b.anchor == AnchorOf(l);
    KindsSpare(k, l);
    KindSparesQuiet(k, b.skipIfPresent);
  }

  lemma Qualifies(k: Kind, before: string, marker: string, after: string)
    requires GoodKind(k) && marker != "" && Quiet(marker[1..])
    ensures WizardOp(Op(AnchorOf(k), before, marker, after)) && MarksItself(Op(AnchorOf(k), before, marker, after))
  {
    OpMarksItself(AnchorOf(k), before, marker, after);
  }

  lemma WizardOpsQualify(cc: string, lower: string, locale: string)
    requires IsTag(cc) && IsTag(lower) && (locale == "" || IsTag(locale))
    ensures var ops := WizardOps(cc, lower, locale);
            forall i :: 0 <= i < |ops| ==> WizardOp(ops[i]) && MarksItself(ops[i])
  {
    Words();
    EmbedMarkerQuiet(lower);
    Qualifies(Embed, "", EmbedMarker(lower), "\nvar coa" + cc + "Basic []byte\n\n");
    ChartMarkerQuiet(cc, lower);
    QuietTail(ChartMarker(cc, lower));
    Qualifies(Tabbed(CHARTS), "\t", ChartMarker(cc, lower), "\n");
    TagQuiet(lower);
    assert Quiet("_basic");
    QuietConcat(lower, "_basic");
    CaseMarkerQuiet(cc, lower + "_basic");
    QuietTail(CaseMarker(cc, lower + "_basic"));
    Qualifies(Tabbed(CHART_CASES), "\t", CaseMarker(cc, lower + "_basic"), "\n");
    if locale != "" {
      TagQuiet(locale);
      CaseMarkerQuiet(cc, locale);
      QuietTail(CaseMarker(cc, locale) + "\n");
      Qualifies(Tabbed(LOCALE_CASES), "\t", CaseMarker(cc, locale) + "\n", "");
    }
  }

  lemma WizardIsWellBehaved(cc: string, lower: string, locale: string)
    requires IsTag(cc) && IsTag(lower) && (locale == "" || IsTag(locale))
    ensures WellBehaved(WizardOps(cc, lower, locale))
  {
    WizardOpsQualify(cc, lower, locale);
    var ops := WizardOps(cc, lower, locale);
    forall i, j | 0 <= i < |ops| && 0 <= j < |ops| ensures Spares(ops[i], ops[j]) {
      WizardOpsSpare(ops[i], ops[j]);
    }
  }

  // ------------------------------------------------------------------
  // What a patched file holds
  // ------------------------------------------------------------------

  lemma AllMarkersLand(start: string, ops: seq<PatchOp>)
    requires WellBehaved(ops) && ValidText(start, ops)
    ensures PatchFirst(start, ops, |ops|).Patched?
    ensures forall i {:trigger ops[i]} :: 0 <= i < |ops| ==>
              Contains(PatchFirst(start, ops, |ops|).body, ops[i].skipIfPresent)
  {
    ValidatedNeverMisses(start, ops, |ops|);
    forall i | 0 <= i < |ops| ensures Contains(PatchFirst(start, ops, |ops|).body, ops[i].skipIfPresent) {
      MarkerLands(start, ops, i);
    }
  }

  lemma EmbedLine(lower: string)
    ensures EmbedMarker(lower) == "//go:embed coa_templates/" + lower + "_basic.json"
  {
    assert "//go:embed coa_templates/" == "//go:embed" + " coa_templates" + "/";
  }

  /** A patched wizard.go embeds the country's chart, maps it, and names it and the locale as the defaults. */
  lemma WizardRegistersCountry(start: string, cc: string, lower: string, locale: string)
    requires IsTag(cc) && IsTag(lower) && (locale == "" || IsTag(locale))
    requires ValidText(start, WizardOps(cc, lower, locale))
    ensures var ops := WizardOps(cc, lower, locale);
            var r := PatchFirst(start, ops, |ops|);
            && r.Patched?
            && Contains(r.body, "//go:embed coa_templates/" + lower + "_basic.json")
            && Contains(r.body, "\"" + lower + "_basic\": coa" + cc + "Basic,")
            && Contains(r.body, "case \"" + cc + "\":\n\t\treturn \"" + (lower + "_basic") + "\"")
            && (locale != "" ==> Contains(r.body, "case \"" + cc + "\":\n\t\treturn \"" + locale + "\"" + "\n"))
  {
    var ops := WizardOps(cc, lower, locale);
    WizardIsWellBehaved(cc, lower, locale);
    AllMarkersLand(start, ops);
    EmbedLine(lower);
    assert ops[0].skipIfPresent == EmbedMarker(lower) && ops[1].skipIfPresent == ChartMarker(cc, lower);
    assert ops[2].skipIfPresent == CaseMarker(cc, lower + "_basic");
    if locale != "" {
      assert ops[3].skipIfPresent == CaseMarker(cc, locale) + "\n";
    }
  }

  /** A patched web wizard offers the chart and makes it the country's default. */
  lemma FrontendOffersChart(start: string, cc: string, lower: string, title: string)
    requires IsTag(cc) && IsTag(lower) && ValidText(start, FrontendWizardOps(cc, lower, title))
    ensures var ops := FrontendWizardOps(cc, lower, title);
            var r := PatchFirst(start, ops, |ops|);
            && r.Patched?
            && Contains(r.body, "{ value: \"" + lower + "_basic\",")
            && Contains(r.body, cc + ": \"" + lower + "_basic\",")
  {
    var ops := FrontendWizardOps(cc, lower, title);
    FrontendWizardIsWellBehaved(cc, lower, title);
    AllMarkersLand(start, ops);
    assert ops[0].skipIfPresent == "{ value: \"" + lower + "_basic\",";
    assert ops[1].skipIfPresent == cc + ": \"" + lower + "_basic\",";
  }

  /** A patched locale registry has the country's default locale, and the locale itself unless it had it before. */
  lemma RegistryHasLocale(start: string, cc: string, locale: string, name: string, registered: bool)
    requires IsTag(cc) && IsTag(locale) && ValidText(start, LocaleOps(cc, locale, name, registered))
    ensures var ops := LocaleOps(cc, locale, name, registered);
            var r := PatchFirst(start, ops, |ops|);
            && r.Patched?
            && Contains(r.body, cc + ": \"" + locale + "\",")
            && (!registered ==> Contains(r.body, "tag: \"" + locale + "\""))
  {
    var ops := LocaleOps(cc, locale, name, registered);
    LocalesAreWellBehaved(cc, locale, name, registered);
    AllMarkersLand(start, ops);
    assert ops[0].skipIfPresent == cc + ": \"" + locale + "\",";
    if !registered {
      assert ops[1].skipIfPresent == "tag: \"" + locale + "\"";
    }
  }

  /** The ops of one of the three planners. */
  ghost predicate Planned(ops: seq<PatchOp>, cc: string, lower: string, locale: string) {
    || ops == WizardOps(cc, lower, locale)
    || (exists title :: ops == FrontendWizardOps(cc, lower, title))
    || (locale != "" && exists name, registered :: ops == LocaleOps(cc, locale, name, registered))
  }

  /** Every plan the planners make is a good one, so what is proved of good plans holds of theirs. */
  lemma PlannersMakeGoodPlans(plan: Plan, cc: string, lower: string, locale: string)
    requires IsTag(cc) && IsTag(lower) && (locale == "" || IsTag(locale))
    requires plan.newFiles.Keys !! plan.patches.Keys
    requires forall path :: path in plan.patches ==> Planned(plan.patches[path], cc, lower, locale)
    ensures GoodPlan(plan)
  {
    forall path | path in plan.patches ensures WellBehaved(plan.patches[path]) {
      var ops := plan.patches[path];
      assert Planned(ops, cc, lower, locale);
      if ops == WizardOps(cc, lower, locale) {
        WizardIsWellBehaved(cc, lower, locale);
      } else if title :| ops == FrontendWizardOps(cc, lower, title) {
        FrontendWizardIsWellBehaved(cc, lower, title);
      } else {
        var name, registered :| ops == LocaleOps(cc, locale, name, registered);
        LocalesAreWellBehaved(cc, locale, name, registered);
      }
    }
  }
}
