# mxroute-tools in Dafny

A model of the decision and formatting logic of `mxroute-tools`, a command-line
client for the DirectAdmin API of an MXRoute mail server. The script has two
commands:

- `list` prints the account's domains, the mailboxes of each domain as
  `box@domain`, and the forwarders as `from@domain --> to1,to2`. Each section
  is headed by a count.
- `dkim` compares, for each domain, the DKIM value the panel expects with the
  value published in DNS under `x._domainkey`. It prints
  `** DNS CORRECT`, `** DNS SETUP` or `** DNS FAILURE`. When the values
  differ it also prints a zone-file line `x._domainkey 3000 IN TXT "..." ...`.

`mxroute-tools.py` and `mxroute_tools.py` are byte-identical copies. The model
follows both; the table cites one or the other.

Modules, one concept each:

- `Wrappers`: `Option` and `Result`.
- `PyStr`: the Python built-ins the script uses. These are slicing with clamped
  and negative bounds, `str.join`, concatenation and `str(n)`. The script never
  splits a string. `PyStr.Split` is here only as the inverse of `str.join`, to
  read a forwarder line's destinations back.
- `PyDict`: Python's insertion-ordered `dict` as a sequence of pairs. It covers
  `get`, `d[k] = v` and `{**a, **b}`.
- `Api`: the request layer. The HTTP GET is a parameter (`Transport`). It
  maps the request's position in its loop, the URL and the query to a
  response or an error. The module holds the parameter merge and the
  per-domain fan-out.
- `Report`: a command's output. This is the lines printed, in order, plus the
  uncaught exception that ended the command, if any.
- `Listing`: `command_list`.
- `Dkim`: `command_dkim`. The DNS lookup is a parameter that gives either the
  TXT answers or a failure. Like the transport, it also receives the
  position of the domain in the loop.

The network is not a pure function of the URL. The same domain named twice
can get two different answers. So the transport and the resolver receive
the loop position as well as the request. A loop is modelled over the
sequence of results its requests would yield, one per position. Only the
results up to the first failure are used, just as the script stops at the
first exception. In the fan-out, `result[domain] = response` keeps a repeated
domain at the place of its first occurrence. Its value is the response to
its last request (`Api.CollectValues`, `Api.FanOutValues`).

The remediation line is modelled as written. Chunks start every 250
characters but hold only 110. For a value longer than 110 characters, the
characters at offsets 110 to 249 of each 250-character window never reach the
output. `Dkim.ChunkCoverage` states exactly which positions survive, and
`Dkim.ChunksLoseCharacters` states that the output is strictly shorter.

Edge cases of `command_dkim`, as the code behaves:

- **No panel record.** Such a domain is not skipped. `dkim_data` stays
  `None`, so the comparison fails. The SETUP or FAILURE line is printed, and
  then `len(None)` raises `TypeError` and ends the command. See
  `Dkim.NoPanelRecordFaults`.
- **Failed lookup.** A failed lookup reads as `NONE`, not as the empty
  string. Both classify as FAILURE. But `"NONE"` is compared as an ordinary
  value, so an expected value of `NONE` with a failed lookup is CORRECT. See
  `Dkim.SentinelIsAValue`.
- **Empty expected value.** If the expected value is empty, the remediation
  line is the bare header with its trailing space and no chunks. The "value
  of at most 110 characters is reproduced whole" property therefore holds
  only for non-empty values.

## Model

| member | source | states |
|---|---|---|
| `PyStr.ClampIndex` | mxroute-tools.py:150 | A slice bound is clamped to [0, len]; a negative bound counts from the end |
| `PyStr.Slice` | mxroute-tools.py:170 | `s[a:b]` with non-negative bounds is `s[a..min(b, len)]`; it is empty when the start is at or past the end, or when the stop is not past the start |
| `PyStr.JoinLength` | mxroute-tools.py:171 | `sep.join(xs)` has the length of the parts plus one separator between each pair |
| `PyStr.SplitJoin` | mxroute-tools.py:136 | Splitting a comma-joined, non-empty list with no commas in its elements gives the list back |
| `PyStr.ConcatAppend` | mxroute-tools.py:158-159 | Concatenating segments in order distributes over appending segment lists; the result has the segments' total length |
| `PyStr.ConcatIsJoin` | mxroute_tools.py:158-159 | A loop of `acc = acc + seg` gives the same string as joining on the empty separator |
| `PyStr.Decimal` | mxroute-tools.py:124 | A printed count is a non-empty string of decimal digits with no leading zero unless the count is 0 |
| `PyStr.DecimalRoundTrip` | mxroute_tools.py:124 | Reading the printed digits back gives the count |
| `PyDict.Get` | mxroute-tools.py:147 | `d.get(k)` yields a value exactly when k is one of d's keys |
| `PyDict.GetAt` | mxroute_tools.py:147 | In a dict with distinct keys, `get` of a position's key yields that position's value |
| `PyDict.Set` | mxroute-tools.py:110 | `d[k] = v` keeps the key order when k is present and appends k otherwise |
| `PyDict.SetGet` | mxroute_tools.py:110 | After `d[k] = v`, k maps to v and every other key keeps its value |
| `PyDict.SetFresh` | mxroute-tools.py:110 | Assigning a key the dict does not hold appends the entry at the end |
| `PyDict.SetValid` | mxroute-tools.py:110 | Assignment keeps each key unique |
| `PyDict.Update` | mxroute-tools.py:89 | `{**d, **e}` keeps d's keys in order, then appends e's new keys in e's order |
| `PyDict.UpdateGet` | mxroute_tools.py:89 | In `{**d, **e}`, a key of e maps to e's value and any other key keeps d's |
| `PyDict.UpdateValid` | mxroute-tools.py:89 | `{**d, **e}` keeps each key unique |
| `PyDict.UpdateFresh` | mxroute_tools.py:89 | When d and e share no key, `{**d, **e}` is d's entries followed by e's |
| `PyDict.DedupFromProps` | mxroute-tools.py:108-110 | First-occurrence deduplication extends its accumulator, keeps exactly the elements seen, and keeps them distinct |
| `PyDict.DedupProps` | mxroute_tools.py:108-110 | The deduplicated domain list has exactly the input's elements, each once; an empty input gives an empty list |
| `Api.RequestParams` | mxroute-tools.py:88-89 | The merged query is well formed and starts with `json`. Its keys are `json` plus the caller's keys. Every caller key has the caller's value, including an override of `json`. Otherwise `json` is `yes`. A missing caller dict gives just the defaults |
| `Api.RequestParamsFresh` | mxroute_tools.py:88-89 | A caller query without `json` is sent as `json=yes` followed by the caller's entries in their order |
| `Api.DomainRequestQuery` | mxroute-tools.py:109 | The query sent for one domain is exactly `json=yes`, `domain`, `action`, in that order |
| `Api.DnsRequestQuery` | mxroute-tools.py:146 | The DNS-control request for a domain sends exactly `json=yes` and `domain` |
| `Api.Collect` | mxroute-tools.py:107-111 | A successful loop's keys are the accumulator's keys followed by the new domains in first-occurrence order |
| `Api.CollectOk` | mxroute-tools.py:108-109 | The loop succeeds exactly when every domain's request succeeds |
| `Api.CollectErr` | mxroute_tools.py:108-109 | A failed loop carries the error of the first domain whose request failed; every earlier request succeeded |
| `Api.CollectKeeps` | mxroute_tools.py:107-110 | A key that no domain of the loop names keeps the value the starting dict gave it |
| `Api.CollectValues` | mxroute-tools.py:108-110 | After a successful loop, a domain holds the response to the request at its last position in the input |
| `Api.FanOut` | mxroute-tools.py:105-111 | An empty domain list gives an empty dict |
| `Api.FanOutOk` | mxroute_tools.py:105-111 | The fan-out succeeds exactly when the request for every position succeeds |
| `Api.FanOutValues` | mxroute-tools.py:105-111 | On success the keys are the distinct input domains in first-occurrence order. Each input domain maps to the response to its last request, and no other domain has an entry |
| `Api.FanOutError` | mxroute_tools.py:105-111 | On failure the fan-out carries the error of the first failing request, and every earlier request succeeded |
| `Api.FanOutEntries` | mxroute-tools.py:110-111 | Each entry of a successful fan-out, in order, pairs an input domain with the response to its last request |
| `Listing.BoxLinesCount` | mxroute-tools.py:123-127 | The number of mailbox lines equals the mailbox count, the sum of the per-domain list lengths |
| `Listing.BoxLineAt` | mxroute-tools.py:125-127 | Mailbox j of domain entry i is printed as `box@domain`, right after the lines of all earlier domains |
| `Listing.ForwarderLinesCount` | mxroute-tools.py:132-137 | The number of forwarder lines equals the forwarder count, the sum of the per-domain source-entry counts |
| `Listing.ForwarderLineAt` | mxroute-tools.py:134-137 | Rule j of domain entry i is printed as `from@domain --> ` plus its destinations joined with `,`, right after the lines of all earlier domains |
| `Listing.SectionCounts` | mxroute-tools.py:122-138 | The number in each section's heading is the number of lines the section lists, although the code computes it as a sum of response lengths |
| `Listing.ForwarderLineTargets` | mxroute_tools.py:136-137 | A forwarder line starts with `from@domain`, and its destinations can be read back by splitting the text after the arrow on commas |
| `Listing.CommandList` | mxroute-tools.py:113-138 | The domain section is printed first, whatever happens. The command completes exactly when both fan-outs succeed. Any fault it ends with is a request failure |
| `Listing.ListingOfNoDomains` | mxroute_tools.py:116-138 | With no domains, the output is the three headings with count 0, each followed by a blank line |
| `Listing.ListingMailboxes` | mxroute_tools.py:122-128 | Once the mailbox fan-out succeeds, the domain section is followed by a heading counting the mailbox lines, the lines, then a blank |
| `Listing.ListingForwarders` | mxroute-tools.py:131-138 | A completed listing has exactly the three sections. It ends with a heading counting the forwarder lines, the lines, then a blank |
| `Listing.ListingFailure` | mxroute_tools.py:122-131 | A failed mailbox fan-out ends the command after the domain section with that error. A failed forwarder fan-out ends it after the mailbox section with that error |
| `Dkim.PanelRecord` | mxroute-tools.py:147 | No record is found exactly when no record is named `x._domainkey` |
| `Dkim.PanelRecordIsFirst` | mxroute_tools.py:147 | If record i is the first named `x._domainkey`, the search returns record i |
| `Dkim.PanelRecordFirst` | mxroute_tools.py:147 | The record found is the first one named `x._domainkey` |
| `Dkim.StripQuotes` | mxroute-tools.py:150 | Unquoting yields `max(0, len-2)` characters; for length at least 2 it is the interior slice |
| `Dkim.StripQuotesExact` | mxroute_tools.py:150 | Unquoting undoes quoting, and it removes exactly one character at each end |
| `Dkim.ExpectedValue` | mxroute-tools.py:147-150 | The expected value is absent exactly when no record is named `x._domainkey`. Otherwise it is the unquoted `value` of the first such record, or `KeyError` when that record has no `value` |
| `Dkim.ObservedValue` | mxroute-tools.py:155-161 | A failed lookup, or one with no answer record, reads as exactly `NONE`. A successful one reads as the in-order join of the first answer's strings |
| `Dkim.Classify` | mxroute-tools.py:163-169 | CORRECT exactly when the values are equal. SETUP exactly when they differ and the observed value is non-empty and not `NONE`. FAILURE exactly when they differ and the observed value is empty or `NONE` |
| `Dkim.ChunksFromLayout` | mxroute-tools.py:170 | From offset s there are ceil((len-s)/250) chunks, and chunk k is the value from s+250k to min(s+250k+110, len) |
| `Dkim.ChunkLayout` | mxroute_tools.py:170 | There are ceil(len/250) chunks; chunk k is the value from 250k to min(250k+110, len), so at most 110 characters long |
| `Dkim.ChunkCoverage` | mxroute-tools.py:170 | Position p reaches the output exactly when p mod 250 is below 110; it then appears in chunk p/250 at offset p mod 250 |
| `Dkim.ChunksFromLength` | mxroute_tools.py:170 | From any offset, the chunks hold no more than the rest of the value, and strictly less when over 110 characters remain |
| `Dkim.ChunksLoseCharacters` | mxroute-tools.py:170-171 | The chunks never hold more than the value, and for a value longer than 110 characters they hold strictly fewer |
| `Dkim.ShortRemediationLine` | mxroute-tools.py:170-171 | A non-empty value of at most 110 characters gives exactly the header followed by the quoted value; an empty value gives the bare header |
| `Dkim.QuotedLength` | mxroute_tools.py:170 | Quoting each chunk adds two characters per chunk |
| `Dkim.RemediationLineShape` | mxroute_tools.py:170-171 | The line starts with `x._domainkey 3000 IN TXT `. For a non-empty value its length is the header, the chunks, two quotes per chunk and one space between chunks |
| `Dkim.Verdict` | mxroute-tools.py:163-172 | Equal values print only the CORRECT line. Differing values with a panel record print the SETUP or FAILURE line, the remediation line for the expected value, and a blank. Without a panel record, the SETUP or FAILURE line is printed and then `len(None)` raises |
| `Dkim.CheckDomain` | mxroute-tools.py:146-172 | A failed request, a response without `records`, or a first `x._domainkey` record without `value` raises before anything is printed for the domain. With no such record, the verdict for an absent expected value follows. Otherwise the verdict compares the unquoted value of the first such record with the observed value |
| `Dkim.NoPanelRecordFaults` | mxroute_tools.py:147-170 | With no `x._domainkey` record, the domain is never reported CORRECT: one status line is printed, then `len(None)` raises |
| `Dkim.SentinelIsAValue` | mxroute_tools.py:155-169 | An expected value of `NONE` with a failed lookup is reported CORRECT. A published `NONE` that differs from the expected value is reported FAILURE |
| `Dkim.RemediationIgnoresObserved` | mxroute-tools.py:170-171 | Any two non-matching lookups print the same remediation line, which depends on the expected value alone |
| `Dkim.RunAllAppend` | mxroute-tools.py:144-172 | Domains are checked independently: the loop over a + b is the loop over a, followed by the loop over b unless a raised |
| `Dkim.RunAllComplete` | mxroute_tools.py:144-172 | The domain loop runs to the end exactly when no domain's check raises. It then prints each domain's lines in input order |
| `Dkim.RunAllFault` | mxroute-tools.py:144-172 | A loop that stops early carries the exception of the first domain whose check raised. Every earlier check completed. The lines printed are those of the earlier domains, then what the raising domain printed |
| `Dkim.CommandDkim` | mxroute-tools.py:140-142 | The command's first line is `* DKIM settings` |
| `Dkim.DkimCompletes` | mxroute_tools.py:140-172 | The command completes exactly when the check of every domain, each at its own loop position, completes |
| `Dkim.DkimOutput` | mxroute-tools.py:140-172 | A completed command prints the heading and then every domain's report in input order |
| `Dkim.DkimFirstFault` | mxroute_tools.py:140-172 | A command that raises ends with the exception of the first domain whose check raised. Every earlier check completed. It prints the heading, the earlier domains' reports, then what the raising domain printed |

## Left out

- HTTP (`requests.get`, authentication, headers, the 10-second timeout, `raise_for_status`, JSON decoding) is the `Transport` parameter. Its errors are the abstract `ApiError`.
- The `ERROR: ...` lines (mxroute-tools.py:97, 102) and the `Response content:` line (mxroute-tools.py:98) that `make_api_request` prints before re-raising are not among the modelled output lines. Their text comes from the foreign exception objects and the raw HTTP body.
- The DNS resolver (`dns.resolver.resolve`) is the `resolve` parameter. Its outcome is `LookupFailed` or the answer records.
- UTF-8 decoding of TXT strings is not modelled: segments arrive as decoded strings. A decoding error counts as a failed lookup, which is what the bare `except` makes of it.
- Command-line handling (`get_config`: argparse, the password prompt, the global `config`), `main`'s dispatch and the initial domain-list request are console plumbing and are not modelled.
- `Api.Url` and `Api.MakeApiRequest` have no contract: URL construction is plain concatenation, and the request is one call of the transport.
- Response shapes are fixed by the types: a mailbox response is a list of local parts, a forwarder response is a dict from source to a list of destinations, and panel records are dicts of strings. Responses of other JSON shapes are not modelled.
- Printing is modelled as the sequence of lines printed. Stream buffering and the process exit are not modelled.
- Dkim.RemediationLineShape: states the header prefix and the exact length rather than every character of the line. `Dkim.ChunkLayout` gives the content of each chunk.
- Dkim.CommandDkim: its own contract states only the heading. Completion, the full output and the first exception are stated by `Dkim.DkimCompletes`, `Dkim.DkimOutput` and `Dkim.DkimFirstFault`.
- Listing.CommandList: its own contract states the domain section and when the command completes. The later sections are stated by `Listing.ListingMailboxes`, `Listing.ListingForwarders` and `Listing.ListingFailure`.
