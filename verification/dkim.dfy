/** `command_dkim`: for each domain, the panel's expected DKIM value is
    compared with the value published in DNS under `x._domainkey`, the
    outcome is classified as CORRECT, SETUP or FAILURE, and for the last two a
    zone-file line for the expected value is printed. The DNS lookup is a
    parameter that yields either the TXT answers or a failure. */
module Dkim {
  import opened Wrappers
  import opened PyDict
  import opened PyStr
  import opened Api
  import opened Report

  const Selector := "x._domainkey"
  /** The value that stands for "no published record"; an ordinary string. */
  const Sentinel := "NONE"
  /** The resource-record prefix of the remediation line, trailing space included. */
  const RecordHeader := Selector + " 3000 IN TXT "
  /** Offsets of successive chunks of the remediation line. */
  const Stride := 250
  /** Length of each chunk of the remediation line. */
  const Width := 110

  /** The first line `command_dkim` prints. */
  const Heading := "* DKIM settings"

  /** One entry of the DNS-control listing (a JSON object with string values). */
  type Record = Dict<string, string>

  /** The DNS-control response; `records` is absent when the key is missing. */
  datatype DnsControl = DnsControl(records: Option<seq<Record>>)

  /** The outcome of the live TXT query: a failure of any kind, or the answer
      records, each a sequence of already-decoded character strings. */
  datatype Lookup = LookupFailed | Resolved(answers: seq<seq<string>>)

  datatype DkimState = Correct | Setup | Failure

  function Min(a: int, b: int): int
  {
    if a <= b then a else b
  }

  predicate IsDkimRecord(item: Record)
  {
    Get(item, "name") == Some(Selector)
  }

  /** `next((item for item in records if item.get('name') == DKIM_SUB), None)`. */
  function PanelRecord(records: seq<Record>): (r: Option<Record>)
    ensures r.None? <==> forall i :: 0 <= i < |records| ==> !IsDkimRecord(records[i])
  {
    if |records| == 0 then None
    else if IsDkimRecord(records[0]) then Some(records[0])
    else
      var r := PanelRecord(records[1..]);
      assert forall i :: 1 <= i < |records| ==> records[i] == records[1..][i - 1];
      r
  }

  /** Record i is the first one named `x._domainkey`. */
  predicate FirstDkim(records: seq<Record>, i: nat)
  {
    && i < |records|
    && IsDkimRecord(records[i])
    && forall j :: 0 <= j < i ==> !IsDkimRecord(records[j])
  }

  /** The search returns the first record named `x._domainkey`. */
  lemma {:induction false} PanelRecordIsFirst(records: seq<Record>, i: nat)
    requires FirstDkim(records, i)
    ensures PanelRecord(records) == Some(records[i])
  {
    if i > 0 {
      assert !IsDkimRecord(records[0]);
      assert records[1..][i - 1] == records[i];
      assert forall j :: 0 <= j < i - 1 ==> records[1..][j] == records[j + 1];
      PanelRecordIsFirst(records[1..], i - 1);
    }
  }

  /** The record found is the first one named `x._domainkey`. */
  lemma {:induction false} PanelRecordFirst(records: seq<Record>) returns (i: nat)
    requires PanelRecord(records).Some?
    ensures i < |records| && records[i] == PanelRecord(records).value && IsDkimRecord(records[i])
    ensures forall j :: 0 <= j < i ==> !IsDkimRecord(records[j])
  {
    if IsDkimRecord(records[0]) {
      i := 0;
    } else {
      var k := PanelRecordFirst(records[1..]);
      i := k + 1;
      assert forall j :: 1 <= j < i ==> records[j] == records[1..][j - 1];
    }
  }

  /** `v[1:len(v)-1]`: drops the first and the last character. */
  function StripQuotes(v: string): (r: string)
    ensures |r| == if |v| >= 2 then |v| - 2 else 0
    ensures |v| >= 2 ==> r == v[1..|v| - 1]
  {
    Slice(v, 1, |v| - 1)
  }

  function Quote(s: string): string
  {
    "\"" + s + "\""
  }

  /** Stripping removes exactly one character at each end: it undoes quoting,
      and the two removed characters put back give the input. */
  lemma StripQuotesExact(v: string, s: string)
    ensures StripQuotes(Quote(s)) == s
    ensures |v| >= 2 ==> [v[0]] + StripQuotes(v) + [v[|v| - 1]] == v
  {
  }

  /** The expected value: none without a panel record, `KeyError` when the
      record has no `value`, otherwise the unquoted value. A record that
      matched has a `name` entry, so it is a non-empty (truthy) dict. */
  function ExpectedValue(records: seq<Record>): (r: Result<Option<string>, Fault>)
    ensures r == Ok(None) <==> forall i :: 0 <= i < |records| ==> !IsDkimRecord(records[i])
    ensures forall i: nat :: FirstDkim(records, i) ==>
      r == if "value" in Keys(records[i]) then Ok(Some(StripQuotes(Get(records[i], "value").value)))
           else Err(KeyMissing("value"))
  {
    PanelRecordFirstAll(records);
    match PanelRecord(records)
    case None => Ok(None)
    case Some(item) =>
      match Get(item, "value")
      case None => Err(KeyMissing("value"))
      case Some(v) => Ok(Some(StripQuotes(v)))
  }

  /** PanelRecordIsFirst for every position at once. */
  lemma PanelRecordFirstAll(records: seq<Record>)
    ensures forall i: nat :: FirstDkim(records, i) ==> PanelRecord(records) == Some(records[i])
  {
    forall i: nat | FirstDkim(records, i)
      ensures PanelRecord(records) == Some(records[i])
    {
      PanelRecordIsFirst(records, i);
    }
  }

  /** The observed value: the strings of the first TXT answer concatenated
      in order, or the sentinel when the query raised (an empty answer list
      raises on `[0]` inside the same `try`). */
  function Observed(lookup: Lookup): string
  {
    match lookup
    case LookupFailed => Sentinel
    case Resolved(answers) => if |answers| == 0 then Sentinel else Concat(answers[0])
  }

  /** A failed lookup, or one with no answer, reads as exactly `NONE`; a
      successful one as the in-order join of the first answer's strings, of
      their total length. */
  lemma ObservedValue(lookup: Lookup)
    ensures lookup.LookupFailed? ==> Observed(lookup) == "NONE"
    ensures lookup.Resolved? && |lookup.answers| == 0 ==> Observed(lookup) == "NONE"
    ensures lookup.Resolved? && |lookup.answers| > 0 ==>
      && Observed(lookup) == Join("", lookup.answers[0])
      && |Observed(lookup)| == TotalLength(lookup.answers[0])
  {
    if lookup.Resolved? && |lookup.answers| > 0 {
      ConcatIsJoin(lookup.answers[0]);
      ConcatAppend(lookup.answers[0], []);
      assert lookup.answers[0] + [] == lookup.answers[0];
    }
  }

  /** The three-way comparison: equal values are CORRECT (an absent expected
      value equals nothing); otherwise a non-empty, non-sentinel observed
      value is SETUP and the rest is FAILURE. */
  function Classify(expected: Option<string>, observed: string): (s: DkimState)
    ensures s == Correct <==> expected == Some(observed)
    ensures s == Setup <==> expected != Some(observed) && observed != "" && observed != Sentinel
    ensures s == Failure <==> expected != Some(observed) && (observed == "" || observed == Sentinel)
  {
    if expected == Some(observed) then Correct
    else if |observed| > 0 && observed != Sentinel then Setup
    else Failure
  }

  function StatusLine(s: DkimState, domain: string): string
  {
    match s
    case Correct => "** DNS CORRECT for " + domain
    case Setup => "** DNS SETUP for " + domain
    case Failure => "** DNS FAILURE for " + domain
  }

  /** The chunks `d[i:i+110]` for `i` in `range(start, len(d), 250)`. */
  function ChunksFrom(d: string, start: nat): seq<string>
    decreases |d| - start
  {
    if start >= |d| then [] else [Slice(d, start, start + Width)] + ChunksFrom(d, start + Stride)
  }

  function Chunks(d: string): seq<string>
  {
    ChunksFrom(d, 0)
  }

  /** `x._domainkey 3000 IN TXT "c0" "c1" ...`. */
  function RemediationLine(expected: string): string
  {
    var cs := Chunks(expected);
    RecordHeader + Join(" ", seq(|cs|, k requires 0 <= k < |cs| => Quote(cs[k])))
  }

  lemma {:induction false} ChunksFromLayout(d: string, start: nat)
    ensures |ChunksFrom(d, start)| == if start >= |d| then 0 else (|d| - start + Stride - 1) / Stride
    ensures forall k :: 0 <= k < |ChunksFrom(d, start)| ==>
      ChunksFrom(d, start)[k] == d[start + Stride * k..Min(start + Stride * k + Width, |d|)]
    decreases |d| - start
  {
    if start < |d| {
      var rest := ChunksFrom(d, start + Stride);
      ChunksFromLayout(d, start + Stride);
      if start + Stride >= |d| {
        assert |rest| == 0;
        assert (|d| - start + Stride - 1) / Stride == 1;
      } else {
        assert |rest| == (|d| - start - 1) / Stride;
        assert (|d| - start + Stride - 1) / Stride == (|d| - start - 1) / Stride + 1;
      }
      forall k | 0 <= k < |ChunksFrom(d, start)|
        ensures ChunksFrom(d, start)[k] == d[start + Stride * k..Min(start + Stride * k + Width, |d|)]
      {
        if k > 0 {
          assert ChunksFrom(d, start)[k] == rest[k - 1];
          assert start + Stride + Stride * (k - 1) == start + Stride * k;
        }
      }
    }
  }

  /** There are ceil(len/250) chunks; chunk k is `d[250k .. min(250k+110, len)]`
      and so holds at most 110 characters. */
  lemma ChunkLayout(d: string)
    ensures |Chunks(d)| == (|d| + Stride - 1) / Stride
    ensures forall k :: 0 <= k < |Chunks(d)| ==>
      && Chunks(d)[k] == d[Stride * k..Min(Stride * k + Width, |d|)]
      && |Chunks(d)[k]| <= Width
  {
    ChunksFromLayout(d, 0);
  }

  /** Position p of the value reaches the remediation line exactly when its
      offset within its 250-character window is below 110: the characters at
      offsets 110 to 249 of each window are dropped. */
  lemma ChunkCoverage(d: string, p: nat)
    requires p < |d|
    ensures p / Stride < |Chunks(d)|
    ensures p % Stride < Width <==> p % Stride < |Chunks(d)[p / Stride]|
    ensures p % Stride < Width ==> Chunks(d)[p / Stride][p % Stride] == d[p]
  {
    ChunkLayout(d);
    var k := p / Stride;
    assert Stride * k + p % Stride == p;
    assert (|d| + Stride - 1) / Stride >= k + 1;
    var c := Chunks(d)[k];
    assert |c| == Min(Stride * k + Width, |d|) - Stride * k;
  }

  lemma {:induction false} ChunksFromLength(d: string, start: nat)
    ensures start <= |d| ==> TotalLength(ChunksFrom(d, start)) <= |d| - start
    ensures start + Width < |d| ==> TotalLength(ChunksFrom(d, start)) < |d| - start
    ensures start >= |d| ==> TotalLength(ChunksFrom(d, start)) == 0
    decreases |d| - start
  {
    if start < |d| {
      ChunksFromLength(d, start + Stride);
      var cs := ChunksFrom(d, start);
      assert cs[1..] == ChunksFrom(d, start + Stride);
    }
  }

  /** The chunks never hold more than the value, and for a value longer than
      110 characters they hold strictly less: characters are lost. */
  lemma ChunksLoseCharacters(d: string)
    ensures TotalLength(Chunks(d)) <= |d|
    ensures |d| > Width ==> TotalLength(Chunks(d)) < |d|
  {
    ChunksFromLength(d, 0);
  }

  /** A value of at most 110 characters is reproduced whole, in one quoted
      chunk; an empty one leaves only the header. */
  lemma ShortRemediationLine(d: string)
    ensures 0 < |d| <= Width ==> RemediationLine(d) == RecordHeader + "\"" + d + "\""
    ensures |d| == 0 ==> RemediationLine(d) == RecordHeader
  {
    if 0 < |d| <= Width {
      assert ChunksFrom(d, Stride) == [];
      assert d[0..|d|] == d;
      assert Slice(d, 0, Width) == d;
      assert Chunks(d) == [d];
    }
  }

  lemma {:induction false} QuotedLength(cs: seq<string>)
    ensures TotalLength(seq(|cs|, k requires 0 <= k < |cs| => Quote(cs[k]))) == TotalLength(cs) + 2 * |cs|
  {
    if |cs| > 0 {
      var qs := seq(|cs|, k requires 0 <= k < |cs| => Quote(cs[k]));
      assert qs[1..] == seq(|cs[1..]|, k requires 0 <= k < |cs[1..]| => Quote(cs[1..][k]));
      QuotedLength(cs[1..]);
    }
  }

  /** The remediation line starts with the record header, followed by the
      chunks, each in quotes, separated by single spaces. */
  lemma RemediationLineShape(d: string)
    ensures RemediationLine(d)[..|RecordHeader|] == RecordHeader
    ensures |d| > 0 ==> |RemediationLine(d)| == |RecordHeader| + TotalLength(Chunks(d)) + 3 * |Chunks(d)| - 1
  {
    var cs := Chunks(d);
    var qs := seq(|cs|, k requires 0 <= k < |cs| => Quote(cs[k]));
    if |d| > 0 {
      ChunkLayout(d);
      JoinLength(" ", qs);
      QuotedLength(cs);
    }
  }

  /** The output for one domain once both values are known: the status line,
      then, unless CORRECT, the remediation line and a blank line; with no
      panel record, `len(None)` raises right after the status line. */
  function Verdict(domain: string, expected: Option<string>, observed: string): (r: Run)
    ensures expected == Some(observed) ==> r == Run(["** DNS CORRECT for " + domain], None)
    ensures expected.Some? && expected != Some(observed) ==>
      && r.fault.None?
      && r.lines == [if observed != "" && observed != Sentinel then "** DNS SETUP for " + domain
                     else "** DNS FAILURE for " + domain,
                     RemediationLine(expected.value), ""]
    ensures expected.None? ==>
      && r.fault == Some(NoLength)
      && r.lines == [if observed != "" && observed != Sentinel then "** DNS SETUP for " + domain
                     else "** DNS FAILURE for " + domain]
  {
    var s := Classify(expected, observed);
    if s == Correct then Run([StatusLine(s, domain)], None)
    else
      match expected
      case None => Run([StatusLine(s, domain)], Some(NoLength))
      case Some(e) => Run([StatusLine(s, domain), RemediationLine(e), ""], None)
  }

  /** One iteration of the loop of `command_dkim`, given the DNS-control
      response and the outcome of the live lookup. An exception raised before
      the comparison (failed request, missing `records`, missing `value`)
      leaves nothing printed for the domain; once the comparison runs, its
      status line is always printed. */
  function CheckDomain(domain: string, panel: Result<DnsControl, ApiError>, lookup: Lookup): (r: Run)
    ensures |r.lines| == 0 <==> r.fault.Some? && !r.fault.value.NoLength?
    ensures r.fault == Some(NoLength) ==> |r.lines| == 1
    ensures r.fault.None? ==> |r.lines| == 1 || |r.lines| == 3
    ensures panel.Err? ==> r == Run([], Some(ApiFailed(panel.error)))
    ensures panel.Ok? && panel.value.records.None? ==> r == Run([], Some(KeyMissing("records")))
    ensures panel.Ok? && panel.value.records.Some? ==>
      var records := panel.value.records.value;
      && ((forall i :: 0 <= i < |records| ==> !IsDkimRecord(records[i])) ==> r == Verdict(domain, None, Observed(lookup)))
      && (forall i: nat :: FirstDkim(records, i) ==>
            r == if "value" in Keys(records[i]) then Verdict(domain, Some(StripQuotes(Get(records[i], "value").value)), Observed(lookup))
                 else Run([], Some(KeyMissing("value"))))
  {
    match panel
    case Err(e) => Run([], Some(ApiFailed(e)))
    case Ok(listing) =>
      match listing.records
      case None => Run([], Some(KeyMissing("records")))
      case Some(records) =>
        match ExpectedValue(records)
        case Err(f) => Run([], Some(f))
        case Ok(expected) => Verdict(domain, expected, Observed(lookup))
  }

  /** With no panel record the comparison can never succeed: the status line
      is SETUP or FAILURE and the command then stops on `len(None)`. */
  lemma NoPanelRecordFaults(domain: string, records: seq<Record>, lookup: Lookup)
    requires forall i :: 0 <= i < |records| ==> !IsDkimRecord(records[i])
    ensures var r := CheckDomain(domain, Ok(DnsControl(Some(records))), lookup);
      && r.fault == Some(NoLength)
      && |r.lines| == 1
      && r.lines[0] != "** DNS CORRECT for " + domain
  {
    var r := CheckDomain(domain, Ok(DnsControl(Some(records))), lookup);
    assert r == Verdict(domain, None, Observed(lookup));
    var setup := "** DNS SETUP for " + domain;
    var failure := "** DNS FAILURE for " + domain;
    var correct := "** DNS CORRECT for " + domain;
    assert setup[8] != correct[8];
    assert failure[8] != correct[8];
  }

  /** The sentinel is compared as a value: an expected value of `NONE` with a
      failed lookup is reported CORRECT, and a published `NONE` that differs
      from the expected value is reported FAILURE, not SETUP. */
  lemma SentinelIsAValue(domain: string, expected: string)
    ensures CheckDomain(domain, Ok(DnsControl(Some([[("name", Selector), ("value", Quote("NONE"))]]))), LookupFailed)
            == Run(["** DNS CORRECT for " + domain], None)
    ensures expected != "NONE" ==>
      Verdict(domain, Some(expected), Observed(Resolved([["NONE"]]))).lines[0] == "** DNS FAILURE for " + domain
  {
    var item: Record := [("name", Selector), ("value", Quote("NONE"))];
    assert Keys(item) == ["name", "value"];
    GetAt(item, 0);
    GetAt(item, 1);
    assert PanelRecord([item]) == Some(item);
    StripQuotesExact("", "NONE");
    assert Concat(["NONE"]) == "NONE";
  }

  /** The remediation line depends on the expected value alone: two lookups
      that both fail to match print the same remediation line. */
  lemma RemediationIgnoresObserved(domain: string, records: seq<Record>, lookup1: Lookup, lookup2: Lookup)
    requires ExpectedValue(records).Ok? && ExpectedValue(records).value.Some?
    requires Observed(lookup1) != ExpectedValue(records).value.value
    requires Observed(lookup2) != ExpectedValue(records).value.value
    ensures var r1 := CheckDomain(domain, Ok(DnsControl(Some(records))), lookup1);
            var r2 := CheckDomain(domain, Ok(DnsControl(Some(records))), lookup2);
      && |r1.lines| == |r2.lines| == 3
      && r1.lines[1..] == r2.lines[1..] == [RemediationLine(ExpectedValue(records).value.value), ""]
  {
  }

  /** The report for the domain at position n of the `dkim` command: its
      DNS-control request and its live lookup are both the n-th of the loop. */
  function DomainReport(host: string, sendDns: Transport<DnsControl>, resolve: (nat, string) -> Lookup, n: nat, domain: string): Run
  {
    CheckDomain(domain, MakeApiRequest(host, sendDns, n, DnsCmd, Some([("domain", domain)])),
                resolve(n, Selector + "." + domain))
  }

  /** The printed lines of a sequence of reports, one report after another. */
  function Flatten(runs: seq<Run>): seq<string>
  {
    if |runs| == 0 then [] else runs[0].lines + Flatten(runs[1..])
  }

  /** The domain loop over the reports of the domains in order, stopping at
      the first one that faults; no later report is printed. */
  function RunAll(reports: seq<Run>): Run
  {
    if |reports| == 0 then Run([], None)
    else if reports[0].fault.Some? then reports[0]
    else
      var rest := RunAll(reports[1..]);
      Run(reports[0].lines + rest.lines, rest.fault)
  }

  /** Domains are checked independently: the loop over a + b is the loop over
      a followed, unless a faulted, by the loop over b. */
  lemma {:induction false} RunAllAppend(a: seq<Run>, b: seq<Run>)
    ensures var ra := RunAll(a);
            var rb := RunAll(b);
      RunAll(a + b) == if ra.fault.Some? then ra else Run(ra.lines + rb.lines, rb.fault)
  {
    if |a| == 0 {
      assert a + b == b;
    } else {
      assert (a + b)[0] == a[0];
      assert (a + b)[1..] == a[1..] + b;
      if a[0].fault.None? {
        RunAllAppend(a[1..], b);
        var ra' := RunAll(a[1..]);
        var rb := RunAll(b);
        if ra'.fault.None? {
          assert a[0].lines + (ra'.lines + rb.lines) == (a[0].lines + ra'.lines) + rb.lines;
        }
      }
    }
  }

  /** The loop runs to the end exactly when no report faults, and then it
      prints every report's lines, one after another. */
  lemma {:induction false} RunAllComplete(reports: seq<Run>)
    ensures RunAll(reports).fault.None? <==> forall i :: 0 <= i < |reports| ==> reports[i].fault.None?
    ensures RunAll(reports).fault.None? ==> RunAll(reports).lines == Flatten(reports)
  {
    if |reports| > 0 {
      RunAllComplete(reports[1..]);
      assert forall i :: 1 <= i < |reports| ==> reports[i] == reports[1..][i - 1];
    }
  }

  /** A loop that faults ends with the fault of the first report that
      faulted; every earlier report completed, and the printed lines are
      those of the earlier reports followed by the faulting report's own. */
  lemma {:induction false} RunAllFault(reports: seq<Run>) returns (i: nat)
    requires RunAll(reports).fault.Some?
    ensures i < |reports| && reports[i].fault == RunAll(reports).fault
    ensures forall j :: 0 <= j < i ==> reports[j].fault.None?
    ensures RunAll(reports).lines == Flatten(reports[..i]) + reports[i].lines
  {
    if reports[0].fault.Some? {
      i := 0;
      assert reports[..0] == [];
    } else {
      var k := RunAllFault(reports[1..]);
      i := k + 1;
      assert reports[1..][k] == reports[i];
      assert forall j :: 1 <= j < i ==> reports[1..][j - 1] == reports[j];
      assert reports[..i][0] == reports[0];
      assert reports[..i][1..] == reports[1..][..k];
      assert reports[0].lines + (Flatten(reports[1..][..k]) + reports[i].lines)
          == (reports[0].lines + Flatten(reports[1..][..k])) + reports[i].lines;
    }
  }

  /** The report of every domain, the one at position i being the i-th of the loop. */
  function DomainReports(host: string, sendDns: Transport<DnsControl>, resolve: (nat, string) -> Lookup, domains: seq<string>): (rs: seq<Run>)
    ensures |rs| == |domains|
  {
    seq(|domains|, i requires 0 <= i < |domains| => DomainReport(host, sendDns, resolve, i, domains[i]))
  }

  /** `command_dkim(domains)`: the heading, then the domain loop. */
  function CommandDkim(host: string, sendDns: Transport<DnsControl>, resolve: (nat, string) -> Lookup, domains: seq<string>): (r: Run)
    ensures |r.lines| >= 1 && r.lines[0] == "* DKIM settings"
  {
    var body := RunAll(DomainReports(host, sendDns, resolve, domains));
    Run([Heading] + body.lines, body.fault)
  }

  /** The command runs to the end exactly when no domain's report faults. */
  lemma DkimCompletes(host: string, sendDns: Transport<DnsControl>, resolve: (nat, string) -> Lookup, domains: seq<string>)
    ensures CommandDkim(host, sendDns, resolve, domains).fault.None? <==>
      forall i :: 0 <= i < |domains| ==> DomainReport(host, sendDns, resolve, i, domains[i]).fault.None?
  {
    var rs := DomainReports(host, sendDns, resolve, domains);
    RunAllComplete(rs);
    assert forall i :: 0 <= i < |domains| ==> rs[i] == DomainReport(host, sendDns, resolve, i, domains[i]);
  }

  /** A command that runs to the end prints, after the heading, every
      domain's report in input order. */
  lemma DkimOutput(host: string, sendDns: Transport<DnsControl>, resolve: (nat, string) -> Lookup, domains: seq<string>)
    requires CommandDkim(host, sendDns, resolve, domains).fault.None?
    ensures CommandDkim(host, sendDns, resolve, domains).lines
         == [Heading] + Flatten(seq(|domains|, i requires 0 <= i < |domains| => DomainReport(host, sendDns, resolve, i, domains[i])))
  {
    RunAllComplete(DomainReports(host, sendDns, resolve, domains));
  }

  /** A command that faults ends with the fault of the first domain whose
      report faulted, and every earlier domain's report completed. It prints
      the heading, the reports of the earlier domains in input order, and
      whatever the faulting domain printed before it raised. */
  lemma DkimFirstFault(host: string, sendDns: Transport<DnsControl>, resolve: (nat, string) -> Lookup, domains: seq<string>) returns (i: nat)
    requires CommandDkim(host, sendDns, resolve, domains).fault.Some?
    ensures i < |domains|
    ensures DomainReport(host, sendDns, resolve, i, domains[i]).fault == CommandDkim(host, sendDns, resolve, domains).fault
    ensures forall j :: 0 <= j < i ==> DomainReport(host, sendDns, resolve, j, domains[j]).fault.None?
    ensures CommandDkim(host, sendDns, resolve, domains).lines
         == [Heading] + Flatten(DomainReports(host, sendDns, resolve, domains)[..i])
            + DomainReport(host, sendDns, resolve, i, domains[i]).lines
  {
    var rs := DomainReports(host, sendDns, resolve, domains);
    i := RunAllFault(rs);
    HeadedLines(RunAll(rs).lines, Flatten(rs[..i]), rs[i].lines);
    assert forall j :: 0 <= j <= i ==> rs[j] == DomainReport(host, sendDns, resolve, j, domains[j]);
  }

  /** Putting the heading in front of lines made of two parts. */
  lemma HeadedLines(lines: seq<string>, earlier: seq<string>, own: seq<string>)
    requires lines == earlier + own
    ensures [Heading] + lines == [Heading] + earlier + own
  {
  }
}
