# Search-surface crawler and claim filters, modelled in Dafny

This project models the two pieces of logic in the repository that have real
control flow.

**The crawl agent** (`connect.py`) drives a browser page to find search
parameters and search inputs on a site. At each step it does four things:

- it captures the page state as text (`capture_page_state`);
- it records findings: query parameters of the URL, and text or search inputs on the page;
- it asks a language model for the next command (`create_prompt`, `query_mistral`);
- it runs that command on the page (`execute_command`).

The loop stops in one of three ways: the model answers `done`, the step budget
`max_steps` runs out, or the model call raises.

**The claim helpers** (`analysis.py`) are three pieces:

- a keyword filter for irrelevant sentences (`is_irrelevant_claim`);
- a sentence filter (`extract_valid_claims`);
- the loop that turns the model's answer into `(claim, status, explanation)` triples.

Files and modules:

| file | module | what it holds |
|---|---|---|
| `wrappers.dfy` | `Wrappers` | `Option` and `Result` |
| `strings.dfy` | `Strings` | Python `str` operations: `startswith`, `find`/`in`, `split`, `join`, `replace(x, "")`, `strip`, ASCII `lower` |
| `browser.dfy` | `Browser` | the page, its elements, the page calls, and a `Session` class whose page changes in place |
| `page_state.dfy` | `PageState` | `capture_page_state` and `create_prompt` |
| `commands.dfy` | `Commands` | `execute_command`: text to command, command to page calls, outcome |
| `crawl.dfy` | `Crawl` | the loop of `automated_crawl_with_mistral` |
| `claims.dfy` | `Claims` | `is_irrelevant_claim` and `extract_valid_claims` |
| `response_parser.dfy` | `ResponseParser` | the answer parser of `extract_and_validate_claims_with_phi3` |

How the outside world is represented:

- **The browser.** It is a `Session` object holding the current page (URL, `<input>` and `<a>` elements with their attributes), a log of the calls made, and a *script* of reactions. Each call consumes one reaction: the call raises (on the old page, or on a page it had already moved to, as a navigation that commits and then times out does), the page stays, or another page loads. Properties proved for every script hold for every deterministic browser.
- **The model.** It is a sequence of replies; the n-th prompt gets the n-th reply. When the replies run out, the HTTP call fails, which aborts the crawl.
- **URL parsing.** `urlparse`/`parse_qs` and `urljoin` are function parameters (`queryOf`, `resolve`).

The code's `execute_command` differs from the crawler's documented design, and the model follows the code:

- Text matching none of the five command forms is not an error. No page call is made for it, but the code still waits for network idle and returns `"success"` (`Commands.NoAction`).
- `fill: ` without `", value: "` is an error only because `parts[1]` raises `IndexError` (`Commands.FillWithoutValue`).
- `scroll` and `done` are exact comparisons. The three other forms are prefix tests that include the trailing space.
- The model's reply is stripped by `query_mistral` before it is matched.

## Model

| member | source | states |
|---|---|---|
| `Browser.Session.Invoke` | connect.py:66-92 | the live page call has the same outcome and new state as `Perform` |
| `Strings.Find` | connect.py:68 | the search underneath `split` (connect.py:68) and `in` (analysis.py:49): the position found is an occurrence and no earlier position is; `None` only when there is no occurrence |
| `Strings.RemoveAllIsJoinOfSplit` | analysis.py:80 | `replace(pat, "")` removes every occurrence of `pat` and is `"".join(s.split(pat))` |
| `Strings.LowerIdempotent` | analysis.py:48 | lowering leaves no ASCII capital, so lowering twice is lowering once |
| `PageState.SearchInputsAppend` | connect.py:27-35 | the listed inputs of two runs of elements are those of each, in document order |
| `PageState.UntypedInputListedAsText` | connect.py:28-35 | an input whose `type` is missing or empty is listed, as type "text" |
| `PageState.DescribeInputs` | connect.py:25-35 | the appending loop yields one description per text/search input, in order |
| `PageState.LinkHrefsAppend` | connect.py:38-39 | the link filter keeps document order across any split of the links |
| `PageState.LinkHrefsOne` | connect.py:39 | a link is kept, with its `href`, exactly when that attribute is present and non-empty |
| `PageState.CapturePageState` | connect.py:16-47 | capturing reads the live page and returns the page-state text of its current page |
| `PageState.RenderedLines` | connect.py:20-46 | the page state reads back line by line as the URL line, then each section's lines; each empty section gives its one placeholder line |
| `PageState.PromptShape` | connect.py:50-62 | the prompt opens with the target site, embeds the page state, and ends with the selector instruction |
| `Commands.InterpretDispatch` | connect.py:67-88 | the forms are tried in a fixed order: prefix `"click: "`, `"fill: "`, `"navigate: "`, then exact `"scroll"` and `"done"`; anything else is no action; each direction of each case is stated |
| `Commands.ClickSelector` | connect.py:67-68 | the click selector is the stripped text between `"click: "` and its next occurrence, or the end |
| `Commands.NavigateTarget` | connect.py:81-82 | the navigation target is the stripped text between `"navigate: "` and its next occurrence, or the end |
| `Commands.FillArguments` | connect.py:70-71 | the fill arguments are the text between `"fill: "` and its next occurrence, or the end |
| `Commands.FillCommandParts` | connect.py:71-73 | without `", value: "` the fill has no value; otherwise the selector is the text before the first separator and the value the text between the first and the second, both stripped |
| `Commands.ClickPlain` | connect.py:67-68 | `"click: "` followed by any selector in which `"click: "` does not occur again clicks that selector, stripped |
| `Commands.FillCommandPlain` | connect.py:71-73 | when the first `", value: "` is the one after the selector and the value holds no other, the selector and value are read back, stripped |
| `Commands.FillPlain` | connect.py:70-73 | `"fill: "`, a selector, `", value: "` and a value fill that selector with that value, both stripped, when `"fill: "` does not occur again, the first separator follows the selector, and the value holds no other |
| `Commands.ClickExample` | connect.py:67-68 | `click: button#submit` clicks `button#submit` |
| `Commands.FillExample` | connect.py:70-74 | `fill: input[name='q'], value: "hello"` fills `input[name='q']` with `"hello"`, quotes kept |
| `Commands.UnknownExample` | connect.py:67-89 | `banana` matches no form and asks for no page action |
| `Commands.RunPlanMakesPrefix` | connect.py:66-89 | running a command's calls makes a prefix of them, consuming one reaction per call made |
| `Commands.RunPlanStops` | connect.py:66-92 | the calls run to the end exactly when no reaction met raises; otherwise they stop right at the first call that raises |
| `Commands.ActRunsPlan` | connect.py:65-93 | acting on a command is running its planned calls; `done` and a fill without value make none |
| `Commands.ActOutcome` | connect.py:65-93 | Done exactly for `done`, with the browser untouched; success exactly when all planned calls ran without a raise; no action still plans the network-idle wait |
| `Commands.ExecuteOutcome` | connect.py:65-93 | the same outcome stated for any text: only `"done"` gives Done; every raise, or a fill without value, gives Error |
| `Commands.ExecuteCommand` | connect.py:65-93 | the live version on a session makes the same calls in the same order and returns the same status |
| `Crawl.SelectSearchInputsEmpty` | connect.py:118-119 | the findings selector matches nothing exactly when no input has a `type` equal to text or search up to ASCII case |
| `Crawl.PageFindingsShape` | connect.py:114-121 | every finding of a step carries the page's URL; a query finding appears exactly when the query map is non-empty; an input finding appears exactly when some input matches the selector; none appear exactly when neither holds |
| `Crawl.UntypedInputListedNotRecorded` | connect.py:118-119 | an input without `type` is listed in the page state (line 28) but not matched by the findings selector |
| `Crawl.UpperCaseInputRecordedNotListed` | connect.py:118-119 | an input of type `TEXT` is matched by the findings selector, which ignores case, but not listed in the page state, which compares exactly (line 32) |
| `Crawl.Observed` | connect.py:110-125 | before the oracle answers, a step appends at most two findings and sends one prompt; earlier findings are untouched |
| `Crawl.Iterate` | connect.py:108-142 | one pass: `done` stops without counting a step, any other outcome counts exactly one; findings and prompts only grow; `visited` grows by at most the current URL; the oracle fails exactly when no reply is left |
| `Crawl.StepEffects` | connect.py:129-142 | only a success adds the current URL to `visited`; an error counts a step and goes on; the step's findings are recorded whatever the outcome |
| `Crawl.RunStops` | connect.py:103-142 | the loop stops; `steps` never passes `max_steps`; at the budget, one prompt per step; on `done` or an oracle failure, one prompt more than steps |
| `Crawl.RunGrows` | connect.py:102-142 | `visited` only grows; findings and prompts are append-only; findings grow by at most two per prompt |
| `Crawl.CrawlReport` | connect.py:102-142 | the target is always visited; steps and prompts are at most `max_steps` (none for a non-positive budget); findings are at most two per prompt |
| `Crawl.DoneAfter` | connect.py:129-132 | when the first `k` replies are not `done` and the next is, within budget, the crawl stops on `done` after exactly `k` steps |
| `Crawl.DoneOnThirdReply` | connect.py:108-132 | budget 3 with replies `scroll`, `scroll`, `done` stops on `done` after two steps |
| `Crawl.AutomatedCrawl` | connect.py:96-142 | the live loop on a session ends in the state `Run` specifies, its browser the session's |
| `Crawl.CrawlStep` | connect.py:108-142 | one live pass of the loop body is `Iterate` |
| `Crawl.RecordPage` | connect.py:110-125 | the live capture and recording step is `Observed`, and the prompt it builds is `create_prompt` of the captured page state |
| `Claims.AnyKeywordInExists` | analysis.py:49 | `any(k in text for k in keywords)` holds exactly when some keyword is a substring |
| `Claims.IrrelevantIffKeyword` | analysis.py:42-49 | a claim is irrelevant exactly when a listed keyword is a substring of its lowered text |
| `Claims.IrrelevanceIgnoresCase` | analysis.py:48-49 | a claim and its lowered form are judged alike |
| `Claims.SubstringMatch` | analysis.py:44-49 | matching is by substring: "Farewell" is irrelevant because of "well" |
| `Claims.KeptClaimsAreKeptSentences` | analysis.py:39 | every kept claim is the stripped form of a sentence longer than 20 characters that is not irrelevant |
| `Claims.KeptSentencesAreKept` | analysis.py:39 | every such sentence gives a kept claim |
| `Claims.KeepClaimsAppend` | analysis.py:39 | the filter keeps the sentences' order |
| `Claims.KeepClaimsOne` | analysis.py:39 | one sentence is kept, stripped, exactly when it passes both tests |
| `Claims.ExtractValidClaimsSpec` | analysis.py:33-39 | nothing for a non-string or a blank text; otherwise every returned claim is the stripped form of a sentence longer than 20 characters that is not irrelevant, every such sentence gives a returned claim, and there is at most one claim per sentence |
| `Claims.KeptClaimMayBeShort` | analysis.py:39 | the length test precedes stripping: 21 spaces are kept as `""` |
| `ResponseParser.MarkedTextJoinsSplit` | analysis.py:80-84 | a marked line's text loses every occurrence of the marker, not only the prefix, and is stripped |
| `ResponseParser.StatusExample` | analysis.py:81-82 | `  Status: True` gives status `True` |
| `ResponseParser.ClassifyByPrefix` | analysis.py:79-84 | a line's kind is the first of the three case-sensitive markers it starts with; other lines are ignored |
| `ResponseParser.ReadLine` | analysis.py:79-85 | the body of the loop for one line is one `Step` |
| `ResponseParser.ReadLines` | analysis.py:78-85 | the loop over the lines is `ParseLines` of their kinds, stopping at the first failure |
| `ResponseParser.ExtractTriples` | analysis.py:73-87 | the decoded answer is stripped, split at line breaks and parsed |
| `ResponseParser.FailureSticks` | analysis.py:78-85 | once the loop has raised, later lines change nothing |
| `ResponseParser.ParseLinesCorrect` | analysis.py:78-85 | the loop succeeds exactly when every explanation line follows some claim and some status line; the triples pair each explanation with the last claim and status before it |
| `ResponseParser.TripleCount` | analysis.py:78-85 | in that case there is one triple per explanation line |
| `ResponseParser.LastClaimExists` | analysis.py:79-80 | a last claim exists exactly when some claim line exists |
| `ResponseParser.FirstFailure` | analysis.py:83-85 | the first unsupported explanation line raises, naming `claim` when no claim line precedes it and `status` otherwise |

## Definitions

The functions below define the model; the members in the table above state and prove what they do.

| definition | source | what it is |
|---|---|---|
| `Browser.AttributeOr` | connect.py:28-31 | `get_attribute(name) or default` |
| `PageState.InputInfoOf` | connect.py:28-31 | the four attributes read for one input, with their defaults |
| `PageState.PageStateText` | connect.py:16-47 | `capture_page_state` on a page value |
| `Browser.Perform` | connect.py:66-92 | one page call against the browser value |
| `Strings.Lower` | analysis.py:48 | `str.lower()` on ASCII letters |
| `PageState.SearchInputs` | connect.py:25-35 | the inputs `capture_page_state` lists |
| `PageState.LinkHrefs` | connect.py:38-39 | the `link_descriptions` comprehension |
| `PageState.RenderPageState` | connect.py:41-46 | the page-state text |
| `PageState.CreatePrompt` | connect.py:50-62 | `create_prompt` |
| `Commands.Interpret` | connect.py:67-88 | the dispatch of `execute_command` on the reply text |
| `Commands.FillCommand` | connect.py:71-73 | the split of the fill arguments at `", value: "` into selector and value |
| `Commands.Plan` | connect.py:66-89 | the page calls a command asks for, in order |
| `Commands.RunPlan` | connect.py:66-92 | running those calls until one raises |
| `Commands.Act` | connect.py:66-93 | the page calls a command makes and its status |
| `Commands.WaitAfter` | connect.py:89-93 | the network-idle wait and the final status |
| `Commands.Execute` | connect.py:65-93 | `execute_command` on a browser value |
| `Crawl.MatchesSearchSelector` | connect.py:118 | the selector `input[type='text'], input[type='search']` |
| `Crawl.SelectSearchInputs` | connect.py:118 | `query_selector_all` with that selector, in document order |
| `Crawl.InputDetails` | connect.py:119-120 | the `input_details` comprehension |
| `Crawl.DetailOf` | connect.py:120 | one input's detail: `type` as written, `name` and `id` defaulting to `''` |
| `Crawl.Start` | connect.py:102-104 | the loop's initial state: `visited_urls = {target}`, `steps = 0`, no findings, no prompts sent |
| `Crawl.PromptFor` | connect.py:110, 124 | `create_prompt(capture_page_state(page), target_url)` |
| `Crawl.PageFindings` | connect.py:113-121 | the findings one step appends |
| `Crawl.Settle` | connect.py:129-142 | what a step's status does to `steps`, `visited_urls` and the loop |
| `Crawl.Run` | connect.py:108-142 | the `while` loop |
| `Claims.AnyKeywordIn` | analysis.py:49 | `any(keyword in claim_lower for keyword in irrelevant_keywords)` |
| `Claims.IsIrrelevantClaim` | analysis.py:42-49 | `is_irrelevant_claim` |
| `Claims.KeepsSentence` | analysis.py:39 | the comprehension's test: `len(sent.text) > 20 and not is_irrelevant_claim(sent.text)` |
| `Claims.KeepClaims` | analysis.py:39 | the list comprehension of `extract_valid_claims` |
| `Claims.ExtractValidClaims` | analysis.py:33-39 | `extract_valid_claims` on the text and its sentences |
| `ResponseParser.MarkedText` | analysis.py:80, 82, 84 | `line.replace(marker, "").strip()` |
| `ResponseParser.Classify` | analysis.py:79-84 | the `if`/`elif` chain on the markers |
| `ResponseParser.Step` | analysis.py:79-85 | one pass of the loop body |
| `ResponseParser.ParseLines` | analysis.py:78-85 | the loop over the lines |
| `ResponseParser.ParseResponse` | analysis.py:73, 78 | the decoded answer stripped, split at `"\n"` and parsed |

## Left out

- The HTTP call in `query_mistral` (connect.py:6-13) is replaced by a sequence of replies. A failed call is running out of replies, which ends the crawl as `OracleFailed`. The findings report is then never printed (connect.py:144-153).
- The Playwright lifecycle (`launch`, `new_page`, the first `goto`, `close`; connect.py:97-101, 144) is left out. The loop starts on whatever page the session holds, and `visited` starts as `{target}`.
- Page calls are abstract: a call may raise, leave the page, or load another page. Reading `page.url` and `query_selector_all` in `capture_page_state` and in the findings step is taken never to fail, so a crash during capture is not modelled.
- The form-submission probe (connect.py:76-80) is a single call, `SubmitEnclosingForm`, that may raise or load a page. Whether a form or a submit button exists is not visible to the model.
- `urlparse`/`parse_qs` (connect.py:18-19, 114-115) and `urljoin` (connect.py:83) are supplied functions, not re-implementations of RFC 3986.
- Findings are kept as structured values (URL plus parameters, or URL plus input details). The text of a finding and all `print` output are not rendered.
- `PageState.ReprList` renders Python's `repr` of a list of strings as `['v1', 'v2']` and does none of `repr`'s escaping: backslashes, line breaks and quotes are copied as they are, and single quotes are always used, even for a value holding one.
- `PageState.RenderedLines` requires every parameter line to be a single line, so it says nothing about a query value holding a line break: the model copies the break, while the program's `repr` escapes it and keeps the line whole.
- The module-level example call (connect.py:156-157) is left out.
- The default budget `max_steps=10` (connect.py:96) is not built in: `max_steps` is always passed to `Crawl.Run` and `Crawl.AutomatedCrawl`.
- `urljoin` raising `ValueError` (connect.py:83, for instance on `navigate: http://[`) is not modelled. The program then returns `"error"` before any `goto`; the supplied `resolve` is total, so the model always makes the `Goto` call.
- In analysis.py, model loading, tokenisation, `model.generate`, timing, spaCy segmentation, `analyze_json` and `__main__` are left out (lines 15-30, 54, 63-75, 90-130). `extract_valid_claims` takes the sentences as an input, and the parser takes the decoded answer as an input.
- `isinstance(text, str)` is modelled as an `Option`: `None` stands for any non-string.
- `lower()` lowers ASCII letters only; no Unicode case mapping is modelled. `strip()` removes the characters Python's `str.isspace` accepts.
