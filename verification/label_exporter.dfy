/**
 * The label-aware exporter (`mediamtx-exporter/mediamtx-exporter.py`): it
 * fetches the metrics text once without credentials, keeps labelled lines
 * such as `name{k="v"} 1` whole under the full line, keeps other lines by
 * the `name value` rule, and serves labelled entries verbatim and the rest
 * as HELP/TYPE/sample triples under its own `mediamtx_exporter_up` gauge.
 */
module LabelExporter {
  import opened Wrappers
  import opened Text
  import opened Assoc
  import opened Upstream
  import opened Exposition
  import FallbackExporter

  // ---------------------------------------------------------------- fetch

  /**
   * `fetch_real_metrics`: one request without credentials; whatever it
   * raises, the text is "".
   */
  function FetchRealMetrics(fetch: Credential -> FetchResult): (r: Scrape)
    ensures r.attempts == [NoAuth]
    ensures fetch(NoAuth).Ok? ==> r.text == fetch(NoAuth).body
    ensures fetch(NoAuth).Err? ==> r.text == ""
  {
    match fetch(NoAuth)
    case Ok(body) => Scrape(body, [NoAuth])
    case Err(_) => Scrape("", [NoAuth])
  }

  /**
   * On an endpoint that answers without credentials both exporters fetch
   * the same text with the same single request; when that request fails
   * this one gives up while the other goes on to the next credential.
   */
  lemma SameFetchAsFallback(fetch: Credential -> FetchResult)
    ensures fetch(NoAuth).Ok? ==> FetchRealMetrics(fetch) == FallbackExporter.FetchRealMetrics(fetch)
    ensures fetch(NoAuth).Err? ==>
      FetchRealMetrics(fetch).text == "" && |FallbackExporter.FetchRealMetrics(fetch).attempts| > 1
  {
    if fetch(NoAuth).Err? {
      FallbackExporter.FailureAdvances(FallbackExporter.AuthMethods, fetch, 0);
    }
  }

  // --------------------------------------------------------------- parser

  /** `"{" in line and "}" in line`. */
  predicate HasLabels(s: string) {
    '{' in s && '}' in s
  }

  /**
   * The labelled-line rule for a stripped line: the first `{` is not at the
   * start, the first `}` comes after it, and something other than
   * whitespace follows that `}`. The whole line is the key.
   */
  function LabelledEntry(ns: NumberSyntax, s: string): (e: Option<(string, Value)>)
    ensures e.Some? ==> e.value.0 == s
    ensures e.Some? ==> e.value.1.text != ""
    ensures e.Some? ==> NoBreak(s) ==> NoBreak(e.value.1.text)
  {
    BracesAt(ns, s, Find(s, '{'), Find(s, '}'))
  }

  /** The labelled rule once the first `{` and the first `}` have been found. */
  function BracesAt(ns: NumberSyntax, s: string, open: int, close: int): (e: Option<(string, Value)>)
    requires close < |s|
    ensures e.Some? ==> e.value.0 == s
    ensures e.Some? ==> e.value.1.text != ""
    ensures e.Some? ==> NoBreak(s) ==> NoBreak(e.value.1.text)
  {
    if open > 0 && close > open then
      var valuePart := Strip(s[close + 1..]);
      if valuePart != "" then
        assert NoBreak(s) ==> NoBreak(valuePart) by {
          if NoBreak(s) {
            SliceNoBreak(s, close + 1);
            StripNoBreak(s[close + 1..]);
          }
        }
        Some((s, Classify(ns, valuePart)))
      else None
    else None
  }

  /**
   * Which labelled lines are kept, in terms of the first `{` at `i` and the
   * first `}` at `j`, and the value they are kept with.
   */
  lemma LabelledEntryKept(ns: NumberSyntax, s: string, i: int, j: int)
    requires FirstAt(s, '{', i) && FirstAt(s, '}', j)
    ensures LabelledEntry(ns, s).Some? <==> 0 < i < j && !AllSpace(s[j + 1..])
    ensures LabelledEntry(ns, s).Some? ==> LabelledEntry(ns, s).value.1 == Classify(ns, Strip(s[j + 1..]))
  {
    FindFirstAt(s, '{', i);
    FindFirstAt(s, '}', j);
    assert LabelledEntry(ns, s) == BracesAt(ns, s, i, j);
    if 0 < i < j {
      var v := Strip(s[j + 1..]);
      assert v == "" <==> AllSpace(s[j + 1..]);
    }
  }

  /** A line missing either brace is never kept by the labelled rule. */
  lemma LabelledEntryNeedsBoth(ns: NumberSyntax, s: string)
    requires '{' !in s || '}' !in s
    ensures LabelledEntry(ns, s).None?
  {
  }

  /** What one line of the fetched text contributes to `parsed_metrics`. */
  function LineEntry(ns: NumberSyntax, line: string): (e: Option<(string, Value)>)
    ensures IsSkipped(Strip(line)) ==> e.None?
    ensures e.Some? ==> (HasLabels(e.value.0) <==> HasLabels(Strip(line)))
    ensures e.Some? && HasLabels(Strip(line)) ==> e.value.0 == Strip(line)
    ensures e.Some? ==> e.value.0 != "" && e.value.1.text != ""
    ensures e.Some? && NoBreak(line) ==> NoBreak(e.value.0) && NoBreak(e.value.1.text)
  {
    var s := Strip(line);
    if IsSkipped(s) then None
    else if HasLabels(s) then
      assert NoBreak(line) ==> NoBreak(s) by {
        if NoBreak(line) {
          StripNoBreak(line);
        }
      }
      LabelledEntry(ns, s)
    else
      var e := SimpleEntry(ns, s);
      assert e.Some? ==> NoBreak(e.value.0) && NoBreak(e.value.1.text) by {
        if e.Some? {
          NoSpaceNoBreak(e.value.0);
          NoSpaceNoBreak(e.value.1.text);
        }
      }
      e
  }

  /**
   * Whether a line is kept, and under which key, does not depend on whether
   * its value converts to a float: a value that does not is kept raw.
   */
  lemma KeptWhateverTheValue(ns1: NumberSyntax, ns2: NumberSyntax, line: string)
    ensures LineEntry(ns1, line).Some? <==> LineEntry(ns2, line).Some?
    ensures LineEntry(ns1, line).Some? ==>
      && LineEntry(ns1, line).value.0 == LineEntry(ns2, line).value.0
      && LineEntry(ns1, line).value.1.text == LineEntry(ns2, line).value.1.text
  {
  }

  /** A line without both braces is read exactly as the fallback exporter reads it. */
  lemma UnlabelledAsFallback(ns: NumberSyntax, line: string)
    requires !HasLabels(Strip(line))
    ensures LineEntry(ns, line) == FallbackExporter.LineEntry(ns, line)
  {
  }

  /**
   * A line without both braces is kept exactly when, stripped, it is a
   * `name value` line whose name does not start with `#`.
   */
  lemma UnlabelledLineKeeps(ns: NumberSyntax, line: string, k: string, v: Value)
    requires !HasLabels(Strip(line))
    ensures LineEntry(ns, line) == Some((k, v)) <==>
      NameValueLine(Strip(line), k, v.text) && k[0] != '#' && v == Classify(ns, v.text)
  {
    UnlabelledAsFallback(ns, line);
    FallbackExporter.LineEntryKeeps(ns, line, k, v);
  }

  /**
   * A line that holds both braces once stripped is kept exactly when it is
   * not a comment, its first `{` (at `i`) is not at the start, its first `}`
   * (at `j`) comes after it, and something other than whitespace follows
   * that `}`; it is kept under the whole stripped line.
   */
  lemma LabelledLineKeeps(ns: NumberSyntax, line: string, i: int, j: int)
    requires HasLabels(Strip(line))
    requires FirstAt(Strip(line), '{', i) && FirstAt(Strip(line), '}', j)
    ensures LineEntry(ns, line).Some? <==>
      Strip(line)[0] != '#' && 0 < i < j && !AllSpace(Strip(line)[j + 1..])
    ensures LineEntry(ns, line).Some? ==>
      LineEntry(ns, line).value == (Strip(line), Classify(ns, Strip(Strip(line)[j + 1..])))
  {
    LabelledEntryKept(ns, Strip(line), i, j);
  }

  /** A trimmed labelled line that is not a comment goes to the labelled rule. */
  lemma TrimmedLabelledLine(ns: NumberSyntax, s: string)
    requires s != "" && !IsSpace(s[0]) && !IsSpace(s[|s| - 1]) && s[0] != '#'
    requires HasLabels(s)
    ensures LineEntry(ns, s) == LabelledEntry(ns, s)
  {
    StripTrimmed(s);
  }

  /** A trimmed labelled line whose braces are in order and followed by `v` is kept. */
  lemma TrimmedLabelledKept(ns: NumberSyntax, s: string, i: int, j: int, v: string)
    requires s != "" && !IsSpace(s[0]) && !IsSpace(s[|s| - 1]) && s[0] != '#'
    requires FirstAt(s, '{', i) && FirstAt(s, '}', j) && 0 < i < j
    requires Strip(s[j + 1..]) == v && v != ""
    ensures LineEntry(ns, s) == Some((s, Classify(ns, v)))
  {
    assert s[i] in s && s[j] in s;
    TrimmedLabelledLine(ns, s);
    LabelledEntryKept(ns, s, i, j);
  }

  /** A labelled line with a value is kept whole. */
  lemma LabelledLineKept(ns: NumberSyntax)
    ensures LineEntry(ns, "up{a=\"b\"} 1") == Some(("up{a=\"b\"} 1", Classify(ns, "1")))
  {
    var s := "up{a=\"b\"} 1";
    KeptLineBraces();
    StripOne();
    TrimmedLabelledKept(ns, s, 2, 8, "1");
  }

  lemma KeptLineBraces()
    ensures var s := "up{a=\"b\"} 1";
      && |s| == 11 && !IsSpace(s[0]) && !IsSpace(s[10]) && s[0] != '#'
      && FirstAt(s, '{', 2) && FirstAt(s, '}', 8) && s[9..] == " 1"
  {
    var s := "up{a=\"b\"} 1";
    assert s[0] == 'u' && s[1] == 'p' && s[2] == '{' && s[3] == 'a';
    assert s[4] == '=' && s[5] == '"' && s[6] == 'b' && s[7] == '"' && s[8] == '}';
    assert s[10] == '1';
  }

  lemma StripOne()
    ensures Strip(" 1") == "1"
  {
    assert " 1"[1..] == "1";
    assert !IsSpace('1') && LeadingSpace("1") == 0;
    assert IsSpace(' ') && LeadingSpace(" 1") == 1;
    assert TrailingSpace("1") == 0;
  }

  /** A line whose first `{` opens it is dropped, not read by the `name value` rule. */
  lemma LeadingBraceDropped(ns: NumberSyntax)
    ensures LineEntry(ns, "{a} 1").None?
  {
    var s := "{a} 1";
    LeadingBraceBraces();
    assert s[0] in s && s[2] in s;
    TrimmedLabelledLine(ns, s);
    LabelledEntryKept(ns, s, 0, 2);
  }

  lemma LeadingBraceBraces()
    ensures var s := "{a} 1";
      && |s| == 5 && !IsSpace(s[0]) && !IsSpace(s[4]) && s[0] != '#' && s[2] == '}'
      && FirstAt(s, '{', 0) && FirstAt(s, '}', 2)
  {
    var s := "{a} 1";
    assert s[0] == '{' && s[1] == 'a' && s[2] == '}' && s[4] == '1';
  }

  /** A labelled line with nothing after its `}` is dropped. */
  lemma MissingValueDropped(ns: NumberSyntax)
    ensures LineEntry(ns, "up{a}").None?
  {
    var s := "up{a}";
    MissingValueBraces();
    assert s[2] in s && s[4] in s;
    TrimmedLabelledLine(ns, s);
    LabelledEntryKept(ns, s, 2, 4);
  }

  lemma MissingValueBraces()
    ensures var s := "up{a}";
      && |s| == 5 && !IsSpace(s[0]) && !IsSpace(s[4]) && s[0] != '#' && s[2] == '{'
      && FirstAt(s, '{', 2) && FirstAt(s, '}', 4) && s[5..] == []
  {
    var s := "up{a}";
    assert s[0] == 'u' && s[1] == 'p' && s[2] == '{' && s[3] == 'a' && s[4] == '}';
  }

  function Entry(ns: NumberSyntax): string -> Option<(string, Value)> {
    line => LineEntry(ns, line)
  }

  lemma EntryOneLine(ns: NumberSyntax)
    ensures KeepsOneLine(Entry(ns))
  {
    forall line | NoBreak(line) && Entry(ns)(line).Some?
      ensures NoBreak(Entry(ns)(line).value.0) && NoBreak(Entry(ns)(line).value.1.text)
    {
      assert Entry(ns)(line) == LineEntry(ns, line);
    }
  }

  // ------------------------------------------------------- exporter state

  /**
   * `update_metrics`: an empty fetched text, whether the request failed or
   * returned an empty body, empties the dictionary; any other text replaces
   * it by what the text parses to.
   */
  function UpdateMetrics(e: Exporter, ns: NumberSyntax, fetch: Credential -> FetchResult): (r: Exporter)
    ensures Valid(r)
    ensures fetch(NoAuth).Err? ==> r.metricsData == []
    ensures FetchRealMetrics(fetch).text == "" ==> r.metricsData == []
    ensures FetchRealMetrics(fetch).text != "" ==> r.metricsData == ParseText(Entry(ns), FetchRealMetrics(fetch).text)
  {
    var text := FetchRealMetrics(fetch).text;
    EntryOneLine(ns);
    if text == "" then Exporter([]) else Exporter(ParseText(Entry(ns), text))
  }

  /** Nothing of the previous state survives an update. */
  lemma NoStaleData(e1: Exporter, e2: Exporter, ns: NumberSyntax, fetch: Credential -> FetchResult)
    ensures UpdateMetrics(e1, ns, fetch) == UpdateMetrics(e2, ns, fetch)
  {
  }

  // ------------------------------------------------------------- renderer

  /** A labelled entry is served as its own line; any other as a triple. */
  function EntryLines(ns: NumberSyntax, key: string, v: Value): seq<string> {
    if HasLabels(key) then [key] else SampleBlock(ns, key, v)
  }

  /** The lines for every entry, in dictionary order. */
  function Body(ns: NumberSyntax, m: Metrics): seq<string> {
    if m == [] then [] else EntryLines(ns, m[0].0, m[0].1) + Body(ns, m[1..])
  }

  /** The lines of two runs of entries are the lines of each, one after the other. */
  lemma {:induction false} BodyAppend(ns: NumberSyntax, a: Metrics, b: Metrics)
    ensures Body(ns, a + b) == Body(ns, a) + Body(ns, b)
  {
    if a != [] {
      assert (a + b)[1..] == a[1..] + b;
      BodyAppend(ns, a[1..], b);
    } else {
      assert a + b == b;
    }
  }

  /** Entry `j`'s lines sit between those of the entries before and after it. */
  lemma EntryInPlace(ns: NumberSyntax, m: Metrics, j: nat)
    requires j < |m|
    ensures Body(ns, m) == Body(ns, m[..j]) + EntryLines(ns, m[j].0, m[j].1) + Body(ns, m[j + 1..])
  {
    assert m == m[..j] + ([m[j]] + m[j + 1..]);
    BodyAppend(ns, m[..j], [m[j]] + m[j + 1..]);
    assert ([m[j]] + m[j + 1..])[1..] == m[j + 1..];
  }

  /** Every served entry line is one line. */
  lemma {:induction false} BodyOneLine(ns: NumberSyntax, m: Metrics)
    requires OneLineMetrics(m) && ShowsOneLine(ns)
    ensures AllOneLine(Body(ns, m))
  {
    if m != [] {
      assert m[0] in m;
      if !HasLabels(m[0].0) {
        SampleBlockOneLine(ns, m[0].0, m[0].1);
      }
      assert OneLineMetrics(m[1..]) by {
        forall p | p in m[1..] ensures NoBreak(p.0) && NoBreak(p.1.text) {
          assert p in m;
        }
      }
      BodyOneLine(ns, m[1..]);
    }
  }

  /**
   * `get_prometheus_metrics`: split into lines, the served text is the
   * `up 0` block for an empty dictionary and otherwise the `up 1` header
   * followed by the entries' lines; its fourth line is the `up` sample.
   */
  function GetPrometheusMetrics(e: Exporter, ns: NumberSyntax): (r: string)
    ensures e.metricsData == [] ==> SplitLines(r) == DownLines
    ensures e.metricsData != [] && OneLineMetrics(e.metricsData) && ShowsOneLine(ns) ==>
      SplitLines(r) == UpLines + Body(ns, e.metricsData)
    ensures |SplitLines(r)| > 3
    ensures SplitLines(r)[3] == SampleLine(UpName, if e.metricsData == [] then "0" else "1")
    ensures e.metricsData == [] || (OneLineMetrics(e.metricsData) && ShowsOneLine(ns)) ==>
      r == JoinLines(SplitLines(r))
  {
    var m := e.metricsData;
    assert OneLineMetrics(m) && ShowsOneLine(ns) ==> AllOneLine(Body(ns, m)) by {
      if OneLineMetrics(m) && ShowsOneLine(ns) {
        BodyOneLine(ns, m);
      }
    }
    Serve(m' => Body(ns, m'), m)
  }

  /**
   * The served text, line by line: the `up 1` header, the lines of the
   * entries before `j`, entry `j`'s own lines (the key alone when it is
   * labelled, its triple otherwise), then those of the entries after it.
   */
  lemma ServesEntryInPlace(e: Exporter, ns: NumberSyntax, j: nat)
    requires Valid(e) && ShowsOneLine(ns)
    requires j < |e.metricsData|
    ensures var m := e.metricsData;
      SplitLines(GetPrometheusMetrics(e, ns))
      == UpLines + Body(ns, m[..j]) + EntryLines(ns, m[j].0, m[j].1) + Body(ns, m[j + 1..])
  {
    var m := e.metricsData;
    var before, own, after := Body(ns, m[..j]), EntryLines(ns, m[j].0, m[j].1), Body(ns, m[j + 1..]);
    assert SplitLines(GetPrometheusMetrics(e, ns)) == UpLines + Body(ns, m);
    EntryInPlace(ns, m, j);
    RegroupFour(UpLines, before, own, after);
  }

  lemma RegroupFour<T>(a: seq<T>, b: seq<T>, c: seq<T>, d: seq<T>)
    ensures a + (b + c + d) == a + b + c + d
  {
  }

  /**
   * A failed request, of whatever kind, serves the fixed `up 0` block,
   * whatever the exporter held before.
   */
  lemma FailureServesDown(e: Exporter, ns: NumberSyntax, fetch: Credential -> FetchResult)
    requires fetch(NoAuth).Err?
    ensures GetPrometheusMetrics(UpdateMetrics(e, ns, fetch), ns) == JoinLines(DownLines)
  {
  }

  /**
   * A labelled line of the fetched text that is kept comes back, stripped,
   * as a line of the served text.
   */
  lemma LabelledLineServed(e: Exporter, ns: NumberSyntax, fetch: Credential -> FetchResult, i: nat)
    requires ShowsOneLine(ns)
    requires i < |SplitLines(FetchRealMetrics(fetch).text)|
    requires HasLabels(Strip(SplitLines(FetchRealMetrics(fetch).text)[i]))
    requires LineEntry(ns, SplitLines(FetchRealMetrics(fetch).text)[i]).Some?
    ensures Strip(SplitLines(FetchRealMetrics(fetch).text)[i]) in
      SplitLines(GetPrometheusMetrics(UpdateMetrics(e, ns, fetch), ns))
  {
    var text := FetchRealMetrics(fetch).text;
    var lines := SplitLines(text);
    var k := Strip(lines[i]);
    assert Yields(Entry(ns)(lines[i]), k);
    var r := UpdateMetrics(e, ns, fetch);
    ParseLinesKeys(lines, Entry(ns), k);
    assert k in Keys(r.metricsData);
    var j :| 0 <= j < |r.metricsData| && Keys(r.metricsData)[j] == k;
    ServesEntryInPlace(r, ns, j);
    assert r.metricsData[j].0 == k && HasLabels(k);
    assert EntryLines(ns, k, r.metricsData[j].1) == [k];
  }
}
