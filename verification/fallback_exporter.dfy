/**
 * The credential-fallback exporter (`mediamtx-exporter.py`): it tries six
 * fixed credentials in order until one fetch succeeds, parses the fetched
 * exposition text into `name value` pairs, and serves them again with its
 * own `mediamtx_exporter_up` gauge.
 */
module FallbackExporter {
  import opened Wrappers
  import opened Text
  import opened Assoc
  import opened Upstream
  import opened Exposition

  // ------------------------------------------------------ credential loop

  /** `auth_methods`, in the order they are tried. */
  const AuthMethods: seq<Credential> := [
    NoAuth,
    Basic("admin", "admin"),
    Basic("mediamtx", "mediamtx"),
    Basic("root", "root"),
    Basic("admin", ""),
    Basic("", "")
  ]

  /** `creds[i]` is the first credential whose fetch succeeds. */
  predicate FirstOk(creds: seq<Credential>, fetch: Credential -> FetchResult, i: int) {
    && 0 <= i < |creds|
    && fetch(creds[i]).Ok?
    && forall j :: 0 <= j < i ==> fetch(creds[j]).Err?
  }

  predicate AllFail(creds: seq<Credential>, fetch: Credential -> FetchResult) {
    forall i :: 0 <= i < |creds| ==> fetch(creds[i]).Err?
  }

  /**
   * The `for auth in auth_methods` loop: every kind of error moves on to
   * the next credential, the first success returns its text, and running
   * out of credentials returns "".
   */
  function TryInOrder(creds: seq<Credential>, fetch: Credential -> FetchResult): (r: Scrape)
    ensures |r.attempts| <= |creds| && r.attempts == creds[..|r.attempts|]
    ensures creds != [] ==> r.attempts != []
    ensures forall j :: 0 <= j < |r.attempts| - 1 ==> fetch(r.attempts[j]).Err?
    decreases |creds|
  {
    if creds == [] then Scrape("", [])
    else
      match fetch(creds[0])
      case Ok(body) => Scrape(body, [creds[0]])
      case Err(_) =>
        var rest := TryInOrder(creds[1..], fetch);
        var r := Scrape(rest.text, [creds[0]] + rest.attempts);
        assert r.attempts == creds[..|r.attempts|] by {
          assert creds[..|r.attempts|] == [creds[0]] + creds[1..][..|rest.attempts|];
        }
        r
  }

  /** When every credential fails, all of them are tried and the text is "". */
  lemma {:induction false} TryInOrderAllFail(creds: seq<Credential>, fetch: Credential -> FetchResult)
    requires AllFail(creds, fetch)
    ensures TryInOrder(creds, fetch) == Scrape("", creds)
    decreases |creds|
  {
    if creds != [] {
      assert fetch(creds[0]).Err?;
      TryInOrderAllFail(creds[1..], fetch);
      assert creds == [creds[0]] + creds[1..];
    }
  }

  /** The first credential that succeeds ends the loop with its response text. */
  lemma {:induction false} TryInOrderFirstOk(creds: seq<Credential>, fetch: Credential -> FetchResult, i: nat)
    requires FirstOk(creds, fetch, i)
    ensures TryInOrder(creds, fetch) == Scrape(fetch(creds[i]).body, creds[..i + 1])
    decreases i
  {
    if i > 0 {
      assert fetch(creds[0]).Err?;
      assert FirstOk(creds[1..], fetch, i - 1);
      TryInOrderFirstOk(creds[1..], fetch, i - 1);
      assert creds[..i + 1] == [creds[0]] + creds[1..][..i];
    }
  }

  /** No error aborts the loop: after failures up to `i`, credential `i + 1` is tried. */
  lemma {:induction false} FailureAdvances(creds: seq<Credential>, fetch: Credential -> FetchResult, i: nat)
    requires i + 1 < |creds|
    requires forall j :: 0 <= j <= i ==> fetch(creds[j]).Err?
    ensures |TryInOrder(creds, fetch).attempts| > i + 1
    ensures TryInOrder(creds, fetch).attempts[i + 1] == creds[i + 1]
    decreases i
  {
    var rest := TryInOrder(creds[1..], fetch);
    assert TryInOrder(creds, fetch).attempts == [creds[0]] + rest.attempts;
    if i > 0 {
      FailureAdvances(creds[1..], fetch, i - 1);
    }
  }

  /** `TryInOrderFirstOk` for whichever credential is the first to succeed. */
  lemma TryInOrderSomeFirstOk(creds: seq<Credential>, fetch: Credential -> FetchResult)
    ensures forall i :: FirstOk(creds, fetch, i) ==>
      TryInOrder(creds, fetch) == Scrape(fetch(creds[i]).body, creds[..i + 1])
  {
    forall i | FirstOk(creds, fetch, i) {
      TryInOrderFirstOk(creds, fetch, i);
    }
  }

  /** `fetch_real_metrics`. */
  function FetchRealMetrics(fetch: Credential -> FetchResult): (r: Scrape)
    ensures r.attempts != [] && r.attempts[0] == NoAuth
    ensures fetch(NoAuth).Ok? ==> r == Scrape(fetch(NoAuth).body, [NoAuth])
    ensures forall i :: FirstOk(AuthMethods, fetch, i) ==>
      r == Scrape(fetch(AuthMethods[i]).body, AuthMethods[..i + 1])
    ensures AllFail(AuthMethods, fetch) ==> r == Scrape("", AuthMethods)
  {
    TryInOrderSomeFirstOk(AuthMethods, fetch);
    if fetch(NoAuth).Ok? then
      assert FirstOk(AuthMethods, fetch, 0);
      TryInOrder(AuthMethods, fetch)
    else if AllFail(AuthMethods, fetch) then
      TryInOrderAllFail(AuthMethods, fetch);
      TryInOrder(AuthMethods, fetch)
    else
      TryInOrder(AuthMethods, fetch)
  }

  /**
   * The situation in which the first credential is refused with a 401 and
   * the second one is accepted: exactly those two are tried.
   */
  lemma SecondCredentialAccepted(fetch: Credential -> FetchResult)
    requires fetch(NoAuth) == Err(HttpError(401))
    requires fetch(Basic("admin", "admin")) == Ok("foo 1")
    ensures FetchRealMetrics(fetch) == Scrape("foo 1", [NoAuth, Basic("admin", "admin")])
  {
    assert FirstOk(AuthMethods, fetch, 1);
    TryInOrderFirstOk(AuthMethods, fetch, 1);
    assert AuthMethods[..2] == [NoAuth, Basic("admin", "admin")];
  }

  // --------------------------------------------------------------- parser

  /** What one line of the fetched text contributes to `parsed_metrics`. */
  function LineEntry(ns: NumberSyntax, line: string): (e: Option<(string, Value)>)
    ensures IsSkipped(Strip(line)) ==> e.None?
    ensures e.Some? ==> e.value.0 != "" && NoSpace(e.value.0) && e.value.0[0] != '#'
    ensures e.Some? ==> e.value.1.text != "" && NoSpace(e.value.1.text)
  {
    var s := Strip(line);
    if IsSkipped(s) then None else SimpleEntry(ns, s)
  }

  /**
   * A line is kept exactly when, stripped, it is a `name value` line whose
   * name does not start with `#`; it is kept under the name, with the value
   * classified.
   */
  lemma LineEntryKeeps(ns: NumberSyntax, line: string, k: string, v: Value)
    ensures LineEntry(ns, line) == Some((k, v)) <==>
      NameValueLine(Strip(line), k, v.text) && k[0] != '#' && v == Classify(ns, v.text)
  {
    var s := Strip(line);
    SimpleEntryShape(ns, s, k, v);
    if NameValueLine(s, k, v.text) {
      var w :| w != "" && AllSpace(w) && s == k + w + v.text;
      assert s[0] == k[0];
    }
  }

  /** A `name value` line is kept under `name`, whatever `value` is. */
  lemma SampleLineParses(ns: NumberSyntax, name: string, value: string)
    requires name != "" && NoSpace(name) && name[0] != '#'
    requires value != "" && NoSpace(value)
    ensures LineEntry(ns, SampleLine(name, value)) == Some((name, Classify(ns, value)))
  {
    var s := SampleLine(name, value);
    SampleLineTrimmed(name, value);
    assert !IsSkipped(s);
    SplitTwo(name, value);
    assert SimpleEntry(ns, s) == Some((name, Classify(ns, value)));
  }

  lemma SampleLineTrimmed(name: string, value: string)
    requires name != "" && NoSpace(name)
    requires value != "" && NoSpace(value)
    ensures Strip(SampleLine(name, value)) == SampleLine(name, value)
    ensures SampleLine(name, value)[0] == name[0]
  {
    var s := SampleLine(name, value);
    assert name[0] in name && value[|value| - 1] in value;
    assert s[0] == name[0] && s[|s| - 1] == value[|value| - 1];
    StripTrimmed(s);
  }

  function Entry(ns: NumberSyntax): string -> Option<(string, Value)> {
    line => LineEntry(ns, line)
  }

  lemma EntryOneLine(ns: NumberSyntax)
    ensures KeepsOneLine(Entry(ns))
  {
    forall line | NoBreak(line) && Entry(ns)(line).Some?
      ensures NoBreak(Entry(ns)(line).value.0) && NoBreak(Entry(ns)(line).value.1.text)
    {
      var e := LineEntry(ns, line);
      NoSpaceNoBreak(e.value.0);
      NoSpaceNoBreak(e.value.1.text);
    }
  }

  // ------------------------------------------------------- exporter state

  /**
   * `update_metrics`: an empty fetched text empties the dictionary, any
   * other text replaces it by what the text parses to.
   */
  function UpdateMetrics(e: Exporter, ns: NumberSyntax, fetch: Credential -> FetchResult): (r: Exporter)
    ensures Valid(r)
    ensures AllFail(AuthMethods, fetch) ==> r.metricsData == []
    ensures FetchRealMetrics(fetch).text == "" ==> r.metricsData == []
    ensures FetchRealMetrics(fetch).text != "" ==> r.metricsData == ParseText(Entry(ns), FetchRealMetrics(fetch).text)
  {
    var text := FetchRealMetrics(fetch).text;
    EntryOneLine(ns);
    if text == "" then Exporter([]) else Exporter(ParseText(Entry(ns), text))
  }

  /** Nothing of the previous state survives an update. */
  lemma NoStaleData(e1: Exporter, e2: Exporter, ns: NumberSyntax, fetch: Credential -> FetchResult)
    ensures UpdateMetrics(e1, ns, fetch) == UpdateMetrics(e2, ns, fetch)
  {
  }

  // ------------------------------------------------------------- renderer

  /** One HELP/TYPE/sample triple per entry, in dictionary order. */
  function Samples(ns: NumberSyntax, m: Metrics): (r: seq<string>)
    ensures |r| == 3 * |m|
    ensures forall j :: 0 <= j < |m| ==> r[3 * j..3 * j + 3] == SampleBlock(ns, m[j].0, m[j].1)
  {
    if m == [] then []
    else
      var rest := Samples(ns, m[1..]);
      var r := SampleBlock(ns, m[0].0, m[0].1) + rest;
      assert forall j :: 0 < j < |m| ==> r[3 * j..3 * j + 3] == rest[3 * (j - 1)..3 * (j - 1) + 3];
      r
  }

  /** Every rendered sample line is one line. */
  lemma {:induction false} SamplesOneLine(ns: NumberSyntax, m: Metrics)
    requires OneLineMetrics(m) && ShowsOneLine(ns)
    ensures AllOneLine(Samples(ns, m))
  {
    if m != [] {
      assert m[0] in m;
      SampleBlockOneLine(ns, m[0].0, m[0].1);
      assert OneLineMetrics(m[1..]) by {
        forall p | p in m[1..] ensures NoBreak(p.0) && NoBreak(p.1.text) {
          assert p in m;
        }
      }
      SamplesOneLine(ns, m[1..]);
      assert Samples(ns, m) == SampleBlock(ns, m[0].0, m[0].1) + Samples(ns, m[1..]);
    }
  }

  /**
   * `get_prometheus_metrics`: split into lines, the served text is the
   * `up 0` block for an empty dictionary and otherwise the `up 1` header
   * followed by the sample triples; its fourth line is the `up` sample.
   */
  function GetPrometheusMetrics(e: Exporter, ns: NumberSyntax): (r: string)
    ensures e.metricsData == [] ==> SplitLines(r) == DownLines
    ensures e.metricsData != [] && OneLineMetrics(e.metricsData) && ShowsOneLine(ns) ==>
      SplitLines(r) == UpLines + Samples(ns, e.metricsData)
    ensures |SplitLines(r)| > 3
    ensures SplitLines(r)[3] == SampleLine(UpName, if e.metricsData == [] then "0" else "1")
    ensures e.metricsData == [] || (OneLineMetrics(e.metricsData) && ShowsOneLine(ns)) ==>
      r == JoinLines(SplitLines(r))
  {
    var m := e.metricsData;
    assert OneLineMetrics(m) && ShowsOneLine(ns) ==> AllOneLine(Samples(ns, m)) by {
      if OneLineMetrics(m) && ShowsOneLine(ns) {
        SamplesOneLine(ns, m);
      }
    }
    Serve(m' => Samples(ns, m'), m)
  }

  /**
   * The served text, line by line: the `up 1` header, then one
   * HELP/TYPE/sample triple per entry in dictionary order.
   */
  lemma ServesEveryEntryInOrder(e: Exporter, ns: NumberSyntax)
    requires Valid(e) && ShowsOneLine(ns)
    requires e.metricsData != []
    ensures var lines := SplitLines(GetPrometheusMetrics(e, ns));
      && |lines| == 4 + 3 * |e.metricsData|
      && lines[..4] == UpLines
      && forall j :: 0 <= j < |e.metricsData| ==>
        lines[4 + 3 * j..7 + 3 * j] == SampleBlock(ns, e.metricsData[j].0, e.metricsData[j].1)
  {
    var lines := UpLines + Samples(ns, e.metricsData);
    assert SplitLines(GetPrometheusMetrics(e, ns)) == lines;
    assert lines[..4] == UpLines;
    SamplesAfterHeader(ns, e.metricsData);
  }

  /** Each entry's triple sits after the four header lines, in dictionary order. */
  lemma SamplesAfterHeader(ns: NumberSyntax, data: Metrics)
    ensures var lines := UpLines + Samples(ns, data);
      forall j :: 0 <= j < |data| ==>
        lines[4 + 3 * j..7 + 3 * j] == SampleBlock(ns, data[j].0, data[j].1)
  {
    var body := Samples(ns, data);
    forall j | 0 <= j < |data|
      ensures (UpLines + body)[4 + 3 * j..7 + 3 * j] == body[3 * j..3 * j + 3]
    {
      SliceAfter(UpLines, body, 3 * j, 3 * j + 3);
    }
  }

  lemma SliceAfter<T>(a: seq<T>, b: seq<T>, i: nat, j: nat)
    requires i <= j <= |b|
    ensures (a + b)[|a| + i..|a| + j] == b[i..j]
  {
  }

  /**
   * When every credential fails the served text is the fixed `up 0`
   * block, whatever the exporter held before: no stale data is kept.
   */
  lemma AllFailuresServeDown(e: Exporter, ns: NumberSyntax, fetch: Credential -> FetchResult)
    requires AllFail(AuthMethods, fetch)
    ensures GetPrometheusMetrics(UpdateMetrics(e, ns, fetch), ns) == JoinLines(DownLines)
  {
  }

  /** An update leaves data exactly when some line of the fetched text is kept. */
  lemma DataExactlyWhenLineKept(e: Exporter, ns: NumberSyntax, fetch: Credential -> FetchResult)
    ensures var lines := SplitLines(FetchRealMetrics(fetch).text);
      UpdateMetrics(e, ns, fetch).metricsData != []
      <==> exists i :: 0 <= i < |lines| && LineEntry(ns, lines[i]).Some?
  {
    var lines := SplitLines(FetchRealMetrics(fetch).text);
    ParseLinesEmpty(lines, Entry(ns));
    assert forall i :: 0 <= i < |lines| ==> Entry(ns)(lines[i]) == LineEntry(ns, lines[i]);
  }

  /**
   * After an update the `up` sample is 1 exactly when some line of the
   * fetched text was kept.
   */
  lemma UpExactlyWhenData(e: Exporter, ns: NumberSyntax, fetch: Credential -> FetchResult)
    ensures |SplitLines(GetPrometheusMetrics(UpdateMetrics(e, ns, fetch), ns))| > 3
    ensures var lines := SplitLines(FetchRealMetrics(fetch).text);
      SplitLines(GetPrometheusMetrics(UpdateMetrics(e, ns, fetch), ns))[3] == SampleLine(UpName, "1")
      <==> exists i :: 0 <= i < |lines| && LineEntry(ns, lines[i]).Some?
  {
    var r := UpdateMetrics(e, ns, fetch);
    var up := SplitLines(GetPrometheusMetrics(r, ns))[3];
    DataExactlyWhenLineKept(e, ns, fetch);
    UpSamplesDiffer();
    assert up == SampleLine(UpName, "1") <==> r.metricsData != [];
  }

  lemma UpSamplesDiffer()
    ensures SampleLine(UpName, "0") != SampleLine(UpName, "1")
  {
    assert SampleLine(UpName, "0")[|UpName| + 1] == '0';
    assert SampleLine(UpName, "1")[|UpName| + 1] == '1';
  }
}
