/** `command_list`: the domain, mailbox and forwarder sections, each headed
    by a count. */
module Listing {
  import opened Wrappers
  import opened PyDict
  import opened PyStr
  import opened Api
  import opened Report

  /** The mailbox response of one domain is its list of local parts. */
  type Mailboxes = Dict<string, seq<string>>

  /** The forwarder response of one domain maps a source local part to its
      destinations. */
  type Forwarders = Dict<string, Dict<string, seq<string>>>

  /** A section heading such as `# Domains (3)`. */
  function CountHeader(title: string, n: nat): string
  {
    "# " + title + " (" + Decimal(n) + ")"
  }

  /** `local@domain`. */
  function Address(local: string, domain: string): string
  {
    local + "@" + domain
  }

  function DomainSection(domains: seq<string>): seq<string>
  {
    [CountHeader("Domains", |domains|)] + domains + [""]
  }

  /** `sum(len(box) for box in email_boxes.values())`. */
  function BoxCount(boxes: Mailboxes): nat
  {
    if |boxes| == 0 then 0 else |boxes[0].1| + BoxCount(boxes[1..])
  }

  /** One `box@domain` line per mailbox, domain by domain. */
  function BoxLines(boxes: Mailboxes): seq<string>
  {
    if |boxes| == 0 then []
    else
      var (domain, locals) := boxes[0];
      seq(|locals|, j requires 0 <= j < |locals| => Address(locals[j], domain)) + BoxLines(boxes[1..])
  }

  function MailboxSection(boxes: Mailboxes): seq<string>
  {
    [CountHeader("Email Accounts", BoxCount(boxes))] + BoxLines(boxes) + [""]
  }

  /** `sum(len(fwd) for fwd in forwarders.values())`: one per source entry. */
  function ForwarderCount(fwds: Forwarders): nat
  {
    if |fwds| == 0 then 0 else |fwds[0].1| + ForwarderCount(fwds[1..])
  }

  /** `from@domain --> to1,to2`. */
  function ForwarderLine(source: string, domain: string, targets: seq<string>): string
  {
    Address(source, domain) + " --> " + Join(",", targets)
  }

  function ForwarderLines(fwds: Forwarders): seq<string>
  {
    if |fwds| == 0 then []
    else
      var (domain, rules) := fwds[0];
      seq(|rules|, j requires 0 <= j < |rules| => ForwarderLine(rules[j].0, domain, rules[j].1)) + ForwarderLines(fwds[1..])
  }

  function ForwarderSection(fwds: Forwarders): seq<string>
  {
    [CountHeader("Forwarders", ForwarderCount(fwds))] + ForwarderLines(fwds) + [""]
  }

  /** There is exactly one mailbox line per mailbox. */
  lemma {:induction false} BoxLinesCount(boxes: Mailboxes)
    ensures |BoxLines(boxes)| == BoxCount(boxes)
  {
    if |boxes| > 0 {
      BoxLinesCount(boxes[1..]);
    }
  }

  /** The line for local part j of domain entry i is `local@domain` and sits
      right after the lines of all earlier domains. */
  lemma {:induction false} BoxLineAt(boxes: Mailboxes, i: nat, j: nat)
    requires i < |boxes| && j < |boxes[i].1|
    ensures BoxCount(boxes[..i]) + j < |BoxLines(boxes)|
    ensures BoxLines(boxes)[BoxCount(boxes[..i]) + j] == Address(boxes[i].1[j], boxes[i].0)
  {
    var (domain, locals) := boxes[0];
    var first := seq(|locals|, k requires 0 <= k < |locals| => Address(locals[k], domain));
    assert BoxLines(boxes) == first + BoxLines(boxes[1..]);
    if i > 0 {
      BoxLineAt(boxes[1..], i - 1, j);
      assert boxes[..i][0] == boxes[0];
      assert boxes[..i][1..] == boxes[1..][..i - 1];
      assert BoxCount(boxes[..i]) == |first| + BoxCount(boxes[1..][..i - 1]);
    } else {
      BoxLinesCount(boxes);
      assert boxes[..0] == [];
    }
  }

  /** There is exactly one forwarder line per forwarding rule. */
  lemma {:induction false} ForwarderLinesCount(fwds: Forwarders)
    ensures |ForwarderLines(fwds)| == ForwarderCount(fwds)
  {
    if |fwds| > 0 {
      ForwarderLinesCount(fwds[1..]);
    }
  }

  /** The line for rule j of domain entry i is `from@domain --> to,...` and
      sits right after the lines of all earlier domains. */
  lemma {:induction false} ForwarderLineAt(fwds: Forwarders, i: nat, j: nat)
    requires i < |fwds| && j < |fwds[i].1|
    ensures ForwarderCount(fwds[..i]) + j < |ForwarderLines(fwds)|
    ensures ForwarderLines(fwds)[ForwarderCount(fwds[..i]) + j] == ForwarderLine(fwds[i].1[j].0, fwds[i].0, fwds[i].1[j].1)
  {
    var (domain, rules) := fwds[0];
    var first := seq(|rules|, k requires 0 <= k < |rules| => ForwarderLine(rules[k].0, domain, rules[k].1));
    assert ForwarderLines(fwds) == first + ForwarderLines(fwds[1..]);
    if i > 0 {
      ForwarderLineAt(fwds[1..], i - 1, j);
      assert fwds[..i][0] == fwds[0];
      assert fwds[..i][1..] == fwds[1..][..i - 1];
      assert ForwarderCount(fwds[..i]) == |first| + ForwarderCount(fwds[1..][..i - 1]);
    } else {
      ForwarderLinesCount(fwds);
      assert fwds[..0] == [];
    }
  }

  /** Each section's heading announces exactly the number of lines it lists. */
  lemma SectionCounts(boxes: Mailboxes, fwds: Forwarders)
    ensures MailboxSection(boxes) == [CountHeader("Email Accounts", |BoxLines(boxes)|)] + BoxLines(boxes) + [""]
    ensures ForwarderSection(fwds) == [CountHeader("Forwarders", |ForwarderLines(fwds)|)] + ForwarderLines(fwds) + [""]
  {
    BoxLinesCount(boxes);
    ForwarderLinesCount(fwds);
  }

  /** The destinations can be read back from a forwarder line by splitting
      what follows the arrow on commas, when no destination holds a comma. */
  lemma ForwarderLineTargets(source: string, domain: string, targets: seq<string>)
    requires |targets| >= 1
    requires forall k :: 0 <= k < |targets| ==> ',' !in targets[k]
    ensures var line := ForwarderLine(source, domain, targets);
      && line[..|Address(source, domain)|] == Address(source, domain)
      && Split(',', line[|Address(source, domain)| + 5..]) == targets
  {
    var line := ForwarderLine(source, domain, targets);
    assert line[|Address(source, domain)| + 5..] == Join(",", targets);
    SplitJoin(',', targets);
  }

  /** `command_list(domains)`: the domain section is printed first; the
      mailbox and forwarder sections each follow a fan-out, and a failed
      fan-out ends the command with the sections printed so far. */
  function CommandList(host: string, sendPop: Transport<seq<string>>,
                       sendFwd: Transport<Dict<string, seq<string>>>, domains: seq<string>): (r: Run)
    ensures |r.lines| >= |domains| + 2 && r.lines[..|domains| + 2] == DomainSection(domains)
    ensures r.fault.None? <==> FanOut(host, sendPop, PopCmd, "list", domains).Ok?
                               && FanOut(host, sendFwd, ForwardersCmd, "list", domains).Ok?
    ensures r.fault.Some? ==> r.fault.value.ApiFailed?
  {
    var head := DomainSection(domains);
    match FanOut(host, sendPop, PopCmd, "list", domains)
    case Err(e) => Run(head, Some(ApiFailed(e)))
    case Ok(boxes) =>
      var printed := head + MailboxSection(boxes);
      match FanOut(host, sendFwd, ForwardersCmd, "list", domains)
      case Err(e) => Run(printed, Some(ApiFailed(e)))
      case Ok(fwds) => Run(printed + ForwarderSection(fwds), None)
  }

  /** With no domains, all three sections are empty and report zero. */
  lemma ListingOfNoDomains(host: string, sendPop: Transport<seq<string>>, sendFwd: Transport<Dict<string, seq<string>>>)
    ensures CommandList(host, sendPop, sendFwd, []) ==
      Run(["# Domains (0)", "", "# Email Accounts (0)", "", "# Forwarders (0)", ""], None)
  {
    assert Decimal(0) == "0";
    assert CountHeader("Domains", 0) == "# Domains (0)";
    assert CountHeader("Email Accounts", 0) == "# Email Accounts (0)";
    assert CountHeader("Forwarders", 0) == "# Forwarders (0)";
    var boxes: Mailboxes := [];
    var fwds: Forwarders := [];
    assert MailboxSection(boxes) == ["# Email Accounts (0)", ""];
    assert ForwarderSection(fwds) == ["# Forwarders (0)", ""];
    assert DomainSection([]) == ["# Domains (0)", ""];
    assert FanOut(host, sendPop, PopCmd, "list", []) == Ok(boxes);
    assert FanOut(host, sendFwd, ForwardersCmd, "list", []) == Ok(fwds);
  }

  /** Once the mailbox fan-out succeeds, the mailbox section follows the
      domain section: a heading that counts the mailbox lines, one
      `box@domain` line per mailbox, and a blank line. */
  lemma ListingMailboxes(host: string, sendPop: Transport<seq<string>>,
                         sendFwd: Transport<Dict<string, seq<string>>>, domains: seq<string>)
    requires FanOut(host, sendPop, PopCmd, "list", domains).Ok?
    ensures var boxes := FanOut(host, sendPop, PopCmd, "list", domains).value;
      var lines := CommandList(host, sendPop, sendFwd, domains).lines;
      && |lines| >= |domains| + |BoxLines(boxes)| + 4
      && lines[|domains| + 2..|domains| + |BoxLines(boxes)| + 4]
         == [CountHeader("Email Accounts", |BoxLines(boxes)|)] + BoxLines(boxes) + [""]
  {
    var boxes := FanOut(host, sendPop, PopCmd, "list", domains).value;
    var lines := CommandList(host, sendPop, sendFwd, domains).lines;
    var head := DomainSection(domains);
    var mid := MailboxSection(boxes);
    SectionCounts(boxes, []);
    assert |head| == |domains| + 2;
    assert |mid| == |BoxLines(boxes)| + 2;
    var tail: seq<string> :| lines == head + mid + tail;
    assert lines[|head|..|head| + |mid|] == mid;
  }

  /** When the listing completes, the forwarder section closes the output: a
      heading that counts the forwarder lines, one `from@domain --> to,...`
      line per forwarding rule, and a blank line. */
  lemma ListingForwarders(host: string, sendPop: Transport<seq<string>>,
                          sendFwd: Transport<Dict<string, seq<string>>>, domains: seq<string>)
    requires CommandList(host, sendPop, sendFwd, domains).fault.None?
    ensures var boxes := FanOut(host, sendPop, PopCmd, "list", domains).value;
      var fwds := FanOut(host, sendFwd, ForwardersCmd, "list", domains).value;
      var lines := CommandList(host, sendPop, sendFwd, domains).lines;
      && |lines| == |domains| + |BoxLines(boxes)| + |ForwarderLines(fwds)| + 6
      && lines[|domains| + |BoxLines(boxes)| + 4..]
         == [CountHeader("Forwarders", |ForwarderLines(fwds)|)] + ForwarderLines(fwds) + [""]
  {
    var boxes := FanOut(host, sendPop, PopCmd, "list", domains).value;
    var fwds := FanOut(host, sendFwd, ForwardersCmd, "list", domains).value;
    var lines := CommandList(host, sendPop, sendFwd, domains).lines;
    var front := DomainSection(domains) + MailboxSection(boxes);
    SectionCounts(boxes, fwds);
    assert lines == front + ForwarderSection(fwds);
    assert |front| == |domains| + |BoxLines(boxes)| + 4;
    assert lines[|front|..] == ForwarderSection(fwds);
  }

  /** A failed fan-out ends the listing with the error of that fan-out: a
      mailbox failure after the domain section alone, a forwarder failure
      after the domain and mailbox sections. */
  lemma ListingFailure(host: string, sendPop: Transport<seq<string>>,
                       sendFwd: Transport<Dict<string, seq<string>>>, domains: seq<string>)
    ensures FanOut(host, sendPop, PopCmd, "list", domains).Err? ==>
      CommandList(host, sendPop, sendFwd, domains)
        == Run(DomainSection(domains), Some(ApiFailed(FanOut(host, sendPop, PopCmd, "list", domains).error)))
    ensures FanOut(host, sendPop, PopCmd, "list", domains).Ok? && FanOut(host, sendFwd, ForwardersCmd, "list", domains).Err? ==>
      CommandList(host, sendPop, sendFwd, domains)
        == Run(DomainSection(domains) + MailboxSection(FanOut(host, sendPop, PopCmd, "list", domains).value),
               Some(ApiFailed(FanOut(host, sendFwd, ForwardersCmd, "list", domains).error)))
  {
  }
}
