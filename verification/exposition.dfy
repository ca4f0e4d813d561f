/**
 * What the two exporters share: the value a parsed line carries, the
 * whitespace-split `name value` rule, the line-by-line dictionary build,
 * Prometheus name cleaning, and the fixed self-metric lines of the
 * exposition text they serve.
 */
module Exposition {
  import opened Wrappers
  import opened Text
  import opened Assoc

  /**
   * A parsed value: `float(text)` when that conversion succeeds, otherwise
   * the raw text. Python floats are not modelled; a `Number` keeps the text
   * it was converted from.
   */
  datatype Value = Number(text: string) | Raw(text: string)

  /**
   * Python's float grammar and float formatting, left abstract:
   * `parses(t)` says whether `float(t)` succeeds, `show(t)` is `f"{float(t)}"`.
   */
  datatype NumberSyntax = NumberSyntax(parses: string -> bool, show: string -> string)

  /** `metrics_data`: metric key to parsed value, in insertion order. */
  type Metrics = seq<(string, Value)>

  /** `float(t)` if it converts, else `t` itself. */
  function Classify(ns: NumberSyntax, t: string): (v: Value)
    ensures v.text == t
    ensures v.Number? <==> ns.parses(t)
  {
    if ns.parses(t) then Number(t) else Raw(t)
  }

  /** `f"{value}"`. */
  function ShowValue(ns: NumberSyntax, v: Value): string {
    match v
    case Number(t) => ns.show(t)
    case Raw(t) => t
  }

  /** Python's float repr never spans two lines. */
  ghost predicate ShowsOneLine(ns: NumberSyntax) {
    forall t :: NoBreak(ns.show(t))
  }

  // -------------------------------------------------------------- parsing

  /** A stripped line that is blank or a `#` comment contributes nothing. */
  predicate IsSkipped(s: string) {
    s == "" || s[0] == '#'
  }

  /** The `parts = line.split(); if len(parts) == 2` rule for a stripped line. */
  function SimpleEntry(ns: NumberSyntax, s: string): (e: Option<(string, Value)>)
    ensures e.Some? ==> e.value.0 != "" && NoSpace(e.value.0)
    ensures e.Some? ==> e.value.1.text != "" && NoSpace(e.value.1.text)
    ensures e.Some? ==> forall c :: c in e.value.0 ==> c in s
    ensures e.Some? && |s| > 0 && !IsSpace(s[0]) ==> e.value.0[0] == s[0]
  {
    var parts := SplitWs(s);
    if |parts| == 2 then
      assert forall c :: c in parts[0] ==> c in s by {
        forall c | c in parts[0] ensures c in s {
          SplitWsHead(s, c);
        }
      }
      assert |s| > 0 && !IsSpace(s[0]) ==> parts[0][0] == s[0] by {
        if |s| > 0 && !IsSpace(s[0]) {
          SplitWsFirst(s);
        }
      }
      Some((parts[0], Classify(ns, parts[1])))
    else None
  }

  /**
   * `s` is `k`, a run of whitespace, and `t`, with `k` and `t` non-empty
   * and free of whitespace: the lines `split()` cuts into exactly two parts.
   */
  ghost predicate NameValueLine(s: string, k: string, t: string) {
    && k != "" && NoSpace(k) && t != "" && NoSpace(t)
    && exists w :: w != "" && AllSpace(w) && s == k + w + t
  }

  /**
   * For a stripped line the rule keeps exactly the `name value` lines: the
   * key is the first part and the value the second, classified.
   */
  lemma SimpleEntryShape(ns: NumberSyntax, s: string, k: string, v: Value)
    requires s == "" || (!IsSpace(s[0]) && !IsSpace(s[|s| - 1]))
    ensures SimpleEntry(ns, s) == Some((k, v)) <==> NameValueLine(s, k, v.text) && v == Classify(ns, v.text)
  {
    if SimpleEntry(ns, s) == Some((k, v)) {
      SimpleEntryIsNameValue(ns, s);
    }
    if NameValueLine(s, k, v.text) && v == Classify(ns, v.text) {
      NameValueSplits(s, k, v.text);
    }
  }

  /** A `name value` line splits into its two parts. */
  lemma NameValueSplits(s: string, k: string, t: string)
    requires NameValueLine(s, k, t)
    ensures SplitWs(s) == [k, t]
  {
    var w :| w != "" && AllSpace(w) && s == k + w + t;
    var gaps := ["", w, ""];
    assert Separated(gaps, [k, t]);
    assert Interleave(gaps[2..], []) == "";
    assert Interleave(gaps[1..], [t]) == w + t + "";
    assert Interleave(gaps, [k, t]) == "" + k + (w + t + "");
    assert s == "" + k + (w + t + "");
    SplitWsInterleave(gaps, [k, t]);
  }

  /** A stripped line the rule keeps is a `name value` line. */
  lemma SimpleEntryIsNameValue(ns: NumberSyntax, s: string)
    requires s == "" || (!IsSpace(s[0]) && !IsSpace(s[|s| - 1]))
    requires SimpleEntry(ns, s).Some?
    ensures NameValueLine(s, SimpleEntry(ns, s).value.0, SimpleEntry(ns, s).value.1.text)
  {
    var parts := SplitWs(s);
    assert |parts| == 2 && SimpleEntry(ns, s).value == (parts[0], Classify(ns, parts[1]));
    TwoTokensNameValue(s, parts);
  }

  /** A stripped text that splits into two parts is those parts around a whitespace run. */
  lemma TwoTokensNameValue(s: string, parts: seq<string>)
    requires s == "" || (!IsSpace(s[0]) && !IsSpace(s[|s| - 1]))
    requires parts == SplitWs(s) && |parts| == 2
    ensures NameValueLine(s, parts[0], parts[1])
  {
    var gaps := Gaps(s);
    InterleaveTwo(gaps, parts);
    StrippedGaps(s, gaps[0], parts[0], gaps[1], parts[1], gaps[2]);
    NameValueWitness(s, parts[0], gaps[1], parts[1]);
  }

  lemma NameValueWitness(s: string, k: string, w: string, t: string)
    requires k != "" && NoSpace(k) && t != "" && NoSpace(t)
    requires w != "" && AllSpace(w) && s == k + w + t
    ensures NameValueLine(s, k, t)
  {
  }

  /** A stripped text with whitespace around a non-empty middle is the middle. */
  lemma StrippedGaps(s: string, a: string, k: string, w: string, t: string, b: string)
    requires s == "" || (!IsSpace(s[0]) && !IsSpace(s[|s| - 1]))
    requires AllSpace(a) && AllSpace(b) && k != ""
    requires s == a + k + w + t + b
    ensures s == k + w + t
  {
    var mid := k + w + t;
    assert s == a + (mid + b);
    SpaceFrontGap(a, mid + b);
    assert s == mid + b;
    SpaceBackGap(mid, b);
  }

  lemma InterleaveTwo(gaps: seq<string>, tokens: seq<string>)
    requires |tokens| == 2 && |gaps| == 3
    ensures Interleave(gaps, tokens) == gaps[0] + tokens[0] + gaps[1] + tokens[1] + gaps[2]
  {
    assert Interleave(gaps[2..], tokens[2..]) == gaps[2];
    assert Interleave(gaps[1..], tokens[1..]) == gaps[1] + tokens[1] + gaps[2];
  }

  /** Whitespace in front of a text that starts with non-whitespace is empty. */
  lemma SpaceFrontGap(g: string, x: string)
    requires AllSpace(g)
    requires g + x != "" && !IsSpace((g + x)[0])
    ensures g == ""
  {
  }

  /** Whitespace after a text that ends with non-whitespace is empty. */
  lemma SpaceBackGap(x: string, g: string)
    requires AllSpace(g)
    requires x + g != "" && !IsSpace((x + g)[|x + g| - 1])
    ensures g == ""
  {
  }

  /** `e` stores something under key `k`. */
  predicate Yields(e: Option<(string, Value)>, k: string) {
    e.Some? && e.value.0 == k
  }

  /**
   * The loop over the lines that fills `parsed_metrics`: each line goes
   * through `entry`, and what it yields is assigned into the dictionary.
   */
  function ParseLines(lines: seq<string>, entry: string -> Option<(string, Value)>): (m: Metrics)
    ensures |m| <= |lines|
    decreases |lines|
  {
    if lines == [] then []
    else
      var m := ParseLines(lines[..|lines| - 1], entry);
      match entry(lines[|lines| - 1])
      case None => m
      case Some(e) => Put(m, e.0, e.1)
  }

  lemma {:induction false} ParseLinesDistinct(lines: seq<string>, entry: string -> Option<(string, Value)>)
    ensures DistinctKeys(ParseLines(lines, entry))
    decreases |lines|
  {
    if lines != [] {
      ParseLinesDistinct(lines[..|lines| - 1], entry);
      var e := entry(lines[|lines| - 1]);
      if e.Some? {
        PutDistinct(ParseLines(lines[..|lines| - 1], entry), e.value.0, e.value.1);
      }
    }
  }

  /** A key is in the dictionary exactly when some line yields it. */
  lemma {:induction false} ParseLinesKeys(lines: seq<string>, entry: string -> Option<(string, Value)>, k: string)
    ensures k in Keys(ParseLines(lines, entry)) <==> exists i :: 0 <= i < |lines| && Yields(entry(lines[i]), k)
    decreases |lines|
  {
    if lines != [] {
      var init := lines[..|lines| - 1];
      var last := lines[|lines| - 1];
      ParseLinesKeys(init, entry, k);
      var m := ParseLines(init, entry);
      var e := entry(last);
      if e.Some? {
        PutKeys(m, e.value.0, e.value.1);
        assert k in Keys(Put(m, e.value.0, e.value.1)) <==> k in Keys(m) || k == e.value.0;
      }
      if exists i :: 0 <= i < |lines| && Yields(entry(lines[i]), k) {
        var i :| 0 <= i < |lines| && Yields(entry(lines[i]), k);
        if i < |lines| - 1 {
          assert init[i] == lines[i];
        }
      }
      if exists i :: 0 <= i < |init| && Yields(entry(init[i]), k) {
        var i :| 0 <= i < |init| && Yields(entry(init[i]), k);
        assert lines[i] == init[i];
      }
    }
  }

  /** A key holds the value of the last line that yields it. */
  lemma {:induction false} ParseLinesLastWins(lines: seq<string>, entry: string -> Option<(string, Value)>, i: nat, k: string, v: Value)
    requires i < |lines| && entry(lines[i]) == Some((k, v))
    requires forall j :: i < j < |lines| ==> !Yields(entry(lines[j]), k)
    ensures Lookup(ParseLines(lines, entry), k) == Some(v)
    decreases |lines|
  {
    var init := lines[..|lines| - 1];
    var m := ParseLines(init, entry);
    var e := entry(lines[|lines| - 1]);
    if i == |lines| - 1 {
      PutLookup(m, k, v);
    } else {
      assert init[i] == lines[i];
      assert forall j :: i < j < |init| ==> init[j] == lines[j];
      ParseLinesLastWins(init, entry, i, k, v);
      if e.Some? {
        PutLookup(m, e.value.0, e.value.1);
      }
    }
  }

  /** Every stored pair is what some line yielded. */
  lemma {:induction false} ParseLinesOrigin(lines: seq<string>, entry: string -> Option<(string, Value)>, p: (string, Value))
    requires p in ParseLines(lines, entry)
    ensures exists i :: 0 <= i < |lines| && entry(lines[i]) == Some(p)
    decreases |lines|
  {
    var init := lines[..|lines| - 1];
    var m := ParseLines(init, entry);
    var e := entry(lines[|lines| - 1]);
    if e.Some? {
      PutPairs(m, e.value.0, e.value.1, p);
    }
    if p in m {
      ParseLinesOrigin(init, entry, p);
      var i :| 0 <= i < |init| && entry(init[i]) == Some(p);
      assert lines[i] == init[i];
    }
  }

  /** The index of the first line that yields `k`, or `|lines|` when none does. */
  function FirstYield(lines: seq<string>, entry: string -> Option<(string, Value)>, k: string): (i: nat)
    ensures i <= |lines|
    ensures i < |lines| ==> Yields(entry(lines[i]), k)
    ensures forall j :: 0 <= j < i ==> !Yields(entry(lines[j]), k)
    decreases |lines|
  {
    if lines == [] then 0
    else if Yields(entry(lines[0]), k) then 0
    else
      var i := FirstYield(lines[1..], entry, k);
      assert forall j :: 1 <= j < i + 1 ==> lines[j] == lines[1..][j - 1];
      1 + i
  }

  lemma FirstYieldIs(lines: seq<string>, entry: string -> Option<(string, Value)>, k: string, i: nat)
    requires i < |lines| && Yields(entry(lines[i]), k)
    requires forall j :: 0 <= j < i ==> !Yields(entry(lines[j]), k)
    ensures FirstYield(lines, entry, k) == i
  {
  }

  /** A key already stored before the last line keeps its first yielding line. */
  lemma FirstYieldInit(lines: seq<string>, entry: string -> Option<(string, Value)>, k: string)
    requires lines != [] && k in Keys(ParseLines(lines[..|lines| - 1], entry))
    ensures FirstYield(lines, entry, k) == FirstYield(lines[..|lines| - 1], entry, k) < |lines| - 1
  {
    var init := lines[..|lines| - 1];
    ParseLinesKeys(init, entry, k);
    var i :| 0 <= i < |init| && Yields(entry(init[i]), k);
    var f := FirstYield(init, entry, k);
    assert f <= i;
    assert forall j :: 0 <= j <= f ==> lines[j] == init[j];
    FirstYieldIs(lines, entry, k, f);
  }

  /** A key first stored by the last line is yielded by no earlier line. */
  lemma FirstYieldNew(lines: seq<string>, entry: string -> Option<(string, Value)>, k: string)
    requires lines != [] && Yields(entry(lines[|lines| - 1]), k)
    requires k !in Keys(ParseLines(lines[..|lines| - 1], entry))
    ensures FirstYield(lines, entry, k) == |lines| - 1
  {
    var init := lines[..|lines| - 1];
    ParseLinesKeys(init, entry, k);
    assert forall j :: 0 <= j < |init| ==> lines[j] == init[j];
    FirstYieldIs(lines, entry, k, |lines| - 1);
  }

  /** The last line keeps the earlier keys in place and appends at most one new key. */
  lemma ParseLinesStepKeys(lines: seq<string>, entry: string -> Option<(string, Value)>)
    requires lines != []
    ensures var m0 := ParseLines(lines[..|lines| - 1], entry);
      var m := ParseLines(lines, entry);
      && |m0| <= |m|
      && (forall i :: 0 <= i < |m0| ==> m[i].0 == m0[i].0)
      && (|m0| < |m| ==>
            |m| == |m0| + 1 && m[|m0|].0 !in Keys(m0) && Yields(entry(lines[|lines| - 1]), m[|m0|].0))
  {
    var m0 := ParseLines(lines[..|lines| - 1], entry);
    var e := entry(lines[|lines| - 1]);
    if e.Some? {
      var m := Put(m0, e.value.0, e.value.1);
      PutKeys(m0, e.value.0, e.value.1);
      assert forall i :: 0 <= i < |m0| ==> Keys(m)[i] == Keys(m0)[i];
      if |m0| < |m| {
        assert Keys(m)[|m0|] == e.value.0;
      }
    }
  }

  /**
   * Keys are stored in the order in which their first yielding line
   * appears: a later assignment to a present key does not move it.
   */
  lemma {:induction false} ParseLinesOrder(lines: seq<string>, entry: string -> Option<(string, Value)>, p: nat, q: nat)
    requires p < q < |ParseLines(lines, entry)|
    ensures var m := ParseLines(lines, entry);
      FirstYield(lines, entry, m[p].0) < FirstYield(lines, entry, m[q].0) < |lines|
    decreases |lines|
  {
    var init := lines[..|lines| - 1];
    var m0 := ParseLines(init, entry);
    var m := ParseLines(lines, entry);
    ParseLinesStepKeys(lines, entry);
    assert Keys(m0)[p] == m[p].0;
    FirstYieldInit(lines, entry, m[p].0);
    if q < |m0| {
      assert Keys(m0)[q] == m[q].0;
      ParseLinesOrder(init, entry, p, q);
      FirstYieldInit(lines, entry, m[q].0);
    } else {
      FirstYieldNew(lines, entry, m[q].0);
    }
  }

  /** The dictionary is empty exactly when no line yields anything. */
  lemma ParseLinesEmpty(lines: seq<string>, entry: string -> Option<(string, Value)>)
    ensures ParseLines(lines, entry) != [] <==> exists i :: 0 <= i < |lines| && entry(lines[i]).Some?
  {
    var m := ParseLines(lines, entry);
    if m != [] {
      var k := m[0].0;
      assert k in Keys(m) by { assert Keys(m)[0] == k; }
      ParseLinesKeys(lines, entry, k);
      var i :| 0 <= i < |lines| && Yields(entry(lines[i]), k);
    }
    if exists i :: 0 <= i < |lines| && entry(lines[i]).Some? {
      var i :| 0 <= i < |lines| && entry(lines[i]).Some?;
      var k := entry(lines[i]).value.0;
      assert Yields(entry(lines[i]), k);
      ParseLinesKeys(lines, entry, k);
    }
  }

  /** `entry` reads every one-line line into a one-line key and value. */
  ghost predicate KeepsOneLine(entry: string -> Option<(string, Value)>) {
    forall line :: NoBreak(line) && entry(line).Some? ==>
      NoBreak(entry(line).value.0) && NoBreak(entry(line).value.1.text)
  }

  /** The `for line in metrics_text.splitlines()` loop of `update_metrics`. */
  function ParseText(entry: string -> Option<(string, Value)>, text: string): (m: Metrics)
    ensures DistinctKeys(m)
    ensures KeepsOneLine(entry) ==> OneLineMetrics(m)
  {
    var lines := SplitLines(text);
    ParseLinesDistinct(lines, entry);
    assert KeepsOneLine(entry) ==> OneLineMetrics(ParseLines(lines, entry)) by {
      if KeepsOneLine(entry) {
        forall p | p in ParseLines(lines, entry) ensures NoBreak(p.0) && NoBreak(p.1.text) {
          ParseLinesOrigin(lines, entry, p);
          var i :| 0 <= i < |lines| && entry(lines[i]) == Some(p);
        }
      }
    }
    ParseLines(lines, entry)
  }

  // ------------------------------------------------------- exporter state

  /** The exporter object; `metrics_data` is its only state. */
  datatype Exporter = Exporter(metricsData: Metrics)

  ghost predicate Valid(e: Exporter) {
    DistinctKeys(e.metricsData) && OneLineMetrics(e.metricsData)
  }

  // ------------------------------------------------------------ rendering

  /**
   * `metric_name.replace("-", "_").replace(".", "_")`: every `-` and `.`
   * becomes `_`, every other character stays.
   */
  function CleanName(name: string): (r: string)
    ensures |r| == |name|
    ensures forall i :: 0 <= i < |name| ==> r[i] == (if name[i] == '-' || name[i] == '.' then '_' else name[i])
    ensures '-' !in r && '.' !in r
  {
    ReplaceChar(ReplaceChar(name, '-', '_'), '.', '_')
  }

  /** Cleaning a clean name changes nothing. */
  lemma CleanNameIdempotent(name: string)
    ensures CleanName(CleanName(name)) == CleanName(name)
  {
    var r := CleanName(name);
    assert forall i :: 0 <= i < |r| ==> r[i] != '-' && r[i] != '.';
  }

  /** Cleaning keeps a one-line name on one line. */
  lemma CleanNameNoBreak(name: string)
    requires NoBreak(name)
    ensures NoBreak(CleanName(name))
  {
    var r := CleanName(name);
    forall c | c in r ensures !IsLineBreak(c) {
      var i :| 0 <= i < |r| && r[i] == c;
      assert name[i] in name;
    }
  }

  function HelpLine(name: string, help: string): string {
    "# HELP " + name + " " + help
  }

  function TypeLine(name: string): string {
    "# TYPE " + name + " gauge"
  }

  function SampleLine(name: string, value: string): string {
    name + " " + value
  }

  const ExporterName := "mediamtx-exporter"
  const Banner := "# MediaMTX metrics exported by " + ExporterName
  const UpName := "mediamtx_exporter_up"
  const UpHelp := "Exporter status (1=up, 0=down)"
  const DurationName := "mediamtx_exporter_scrape_duration_seconds"
  const DurationHelp := "Time spent scraping MediaMTX"

  /** The whole text served while `metrics_data` is empty. */
  const DownLines: seq<string> := [
    Banner,
    HelpLine(UpName, UpHelp),
    TypeLine(UpName),
    SampleLine(UpName, "0"),
    HelpLine(DurationName, DurationHelp),
    TypeLine(DurationName),
    SampleLine(DurationName, "0")
  ]

  /** The lines that open the text served while `metrics_data` has entries. */
  const UpLines: seq<string> := [
    Banner,
    HelpLine(UpName, UpHelp),
    TypeLine(UpName),
    SampleLine(UpName, "1")
  ]

  /** The HELP/TYPE/sample triple for one unlabelled entry. */
  function SampleBlock(ns: NumberSyntax, key: string, v: Value): seq<string> {
    var name := CleanName(key);
    [HelpLine(name, "MediaMTX metric: " + key), TypeLine(name), SampleLine(name, ShowValue(ns, v))]
  }

  /** Every key and every stored text is one line. */
  ghost predicate OneLineMetrics(m: Metrics) {
    forall p :: p in m ==> NoBreak(p.0) && NoBreak(p.1.text)
  }

  predicate AllOneLine(lines: seq<string>) {
    forall i :: 0 <= i < |lines| ==> NoBreak(lines[i])
  }

  lemma HelpLineOneLine(name: string, help: string)
    requires NoBreak(name) && NoBreak(help)
    ensures NoBreak(HelpLine(name, help))
  {
    assert NoBreak("# HELP ") && NoBreak(" ");
  }

  lemma TypeLineOneLine(name: string)
    requires NoBreak(name)
    ensures NoBreak(TypeLine(name))
  {
    assert NoBreak("# TYPE ") && NoBreak(" gauge");
  }

  lemma SampleLineOneLine(name: string, value: string)
    requires NoBreak(name) && NoBreak(value)
    ensures NoBreak(SampleLine(name, value))
  {
    assert NoBreak(" ");
  }

  // Proof helpers for the fixed literals. Each `...PiecesOneLine` lemma
  // states that the short pieces one literal is assembled from hold no
  // line break; the solver checks a literal one character at a time, so
  // long literals are taken a piece at a time.

  lemma BannerPiecesOneLine()
    ensures NoBreak("# MediaMTX metrics ") && NoBreak("exported by ")
  {
  }

  lemma UpPiecesOneLine()
    ensures NoBreak("mediamtx_exporter_") && NoBreak("Exporter status (") && NoBreak("1=up, 0=down)")
  {
  }

  lemma DurationPiecesOneLine()
    ensures NoBreak("scrape_duration_") && NoBreak("seconds")
    ensures NoBreak("Time spent scraping ") && NoBreak("MediaMTX")
  {
  }

  lemma BannerOneLine()
    ensures NoBreak(Banner)
  {
    BannerPiecesOneLine();
    assert "# MediaMTX metrics exported by " == "# MediaMTX metrics " + "exported by ";
    assert NoBreak(ExporterName);
  }

  lemma UpNamesOneLine()
    ensures NoBreak(UpName) && NoBreak(UpHelp)
  {
    UpPiecesOneLine();
    assert UpName == "mediamtx_exporter_" + "up";
    assert UpHelp == "Exporter status (" + "1=up, 0=down)";
  }

  lemma DurationNamesOneLine()
    ensures NoBreak(DurationName)
    ensures NoBreak(DurationHelp)
  {
    UpPiecesOneLine();
    DurationPiecesOneLine();
    assert DurationName == "mediamtx_exporter_" + "scrape_duration_" + "seconds";
    assert DurationHelp == "Time spent scraping " + "MediaMTX";
  }

  lemma FixedLinesOneLine()
    ensures AllOneLine(DownLines) && AllOneLine(UpLines)
  {
    BannerOneLine();
    UpNamesOneLine();
    DurationNamesOneLine();
    assert NoBreak("0") && NoBreak("1");
    HelpLineOneLine(UpName, UpHelp);
    HelpLineOneLine(DurationName, DurationHelp);
    TypeLineOneLine(UpName);
    TypeLineOneLine(DurationName);
    SampleLineOneLine(UpName, "0");
    SampleLineOneLine(UpName, "1");
    SampleLineOneLine(DurationName, "0");
  }

  lemma SampleBlockOneLine(ns: NumberSyntax, key: string, v: Value)
    requires ShowsOneLine(ns)
    requires NoBreak(key) && NoBreak(v.text)
    ensures AllOneLine(SampleBlock(ns, key, v))
  {
    var name := CleanName(key);
    CleanNameNoBreak(key);
    assert NoBreak("MediaMTX metric: ");
    HelpLineOneLine(name, "MediaMTX metric: " + key);
    TypeLineOneLine(name);
    assert NoBreak(ShowValue(ns, v));
    SampleLineOneLine(name, ShowValue(ns, v));
  }

  /**
   * `get_prometheus_metrics`: the `up 0` block while the dictionary is
   * empty, otherwise the `up 1` header followed by `body`'s lines for the
   * entries, each line ended by `"\n"`.
   */
  function Serve(body: Metrics -> seq<string>, m: Metrics): (r: string)
    ensures m == [] ==> SplitLines(r) == DownLines
    ensures m != [] && AllOneLine(body(m)) ==> SplitLines(r) == UpLines + body(m)
    ensures |SplitLines(r)| > 3
    ensures SplitLines(r)[3] == SampleLine(UpName, if m == [] then "0" else "1")
    ensures m == [] || AllOneLine(body(m)) ==> r == JoinLines(SplitLines(r))
  {
    if m == [] then
      DownLinesSplit();
      JoinLines(DownLines)
    else
      UpLinesSplit(body(m));
      JoinLines(UpLines + body(m))
  }

  lemma DownLinesSplit()
    ensures SplitLines(JoinLines(DownLines)) == DownLines
  {
    FixedLinesOneLine();
    SplitJoinedLines(DownLines, "");
    assert DownLines + [] == DownLines;
    assert JoinLines(DownLines) + "" == JoinLines(DownLines);
  }

  /** The `up 1` header comes back first, and all of the lines when the body is one line each. */
  lemma UpLinesSplit(body: seq<string>)
    ensures |SplitLines(JoinLines(UpLines + body))| > 3
    ensures SplitLines(JoinLines(UpLines + body))[3] == SampleLine(UpName, "1")
    ensures AllOneLine(body) ==> SplitLines(JoinLines(UpLines + body)) == UpLines + body
  {
    FixedLinesOneLine();
    var lines := UpLines + body;
    JoinLinesAppend(UpLines, body);
    SplitJoinedLines(UpLines, JoinLines(body));
    if AllOneLine(body) {
      assert AllOneLine(lines);
      SplitJoinedLines(lines, "");
      assert JoinLines(lines) + "" == JoinLines(lines);
      assert lines + [] == lines;
    }
  }
}
