/** The crawl loop `automated_crawl_with_mistral` (connect.py lines 96-153): per step it
    captures the page, records findings, asks the oracle for a command and executes
    it, until the oracle says "done", the step budget runs out, or the oracle call
    fails. */
module Crawl {
  import opened Strings
  import opened Browser
  import opened PageState
  import opened Commands

  /** What `query_selector_all` returns for `input` elements, reduced to the attributes
      the finding prints: `type` as present, `name` and `id` defaulting to "". */
  datatype InputDetail = InputDetail(kind: string, name: string, id: string)

  /** An entry of `findings`, tied to the URL of the page it was seen on. */
  datatype Finding =
    | QueryFinding(url: string, params: QueryParams)
    | InputFinding(url: string, inputs: seq<InputDetail>)

  /** The CSS selector `input[type='text'], input[type='search']`: the attribute must be
      present, and in an HTML document its value is compared ignoring ASCII case. */
  predicate MatchesSearchSelector(e: Element) {
    "type" in e.attributes && IsSearchKind(Lower(e.attributes["type"]))
  }

  function SelectSearchInputs(inputs: seq<Element>): (r: seq<Element>)
    ensures |r| <= |inputs|
    ensures forall k :: 0 <= k < |r| ==> MatchesSearchSelector(r[k])
  {
    if inputs == [] then []
    else (if MatchesSearchSelector(inputs[0]) then [inputs[0]] else []) + SelectSearchInputs(inputs[1..])
  }

  /** The selector matches nothing exactly when no input matches it. */
  lemma {:induction false} SelectSearchInputsEmpty(inputs: seq<Element>)
    ensures SelectSearchInputs(inputs) == [] <==> forall k :: 0 <= k < |inputs| ==> !MatchesSearchSelector(inputs[k])
  {
    if inputs != [] {
      SelectSearchInputsEmpty(inputs[1..]);
      assert forall k :: 1 <= k < |inputs| ==> inputs[k] == inputs[1..][k - 1];
    }
  }

  function InputDetails(inputs: seq<Element>): (r: seq<InputDetail>)
    requires forall k :: 0 <= k < |inputs| ==> MatchesSearchSelector(inputs[k])
    ensures |r| == |inputs|
  {
    seq(|inputs|, k requires 0 <= k < |inputs| => DetailOf(inputs[k]))
  }

  /** The `type`, `name` and `id` of a matched input, as the finding prints them: the
      `type` as written, which is text or search up to ASCII case. */
  function DetailOf(e: Element): (r: InputDetail)
    requires MatchesSearchSelector(e)
    ensures IsSearchKind(Lower(r.kind)) && r.kind == e.attributes["type"]
    ensures r.name == AttributeOr(e, "name", "") && r.id == AttributeOr(e, "id", "")
  {
    InputDetail(e.attributes["type"], AttributeOr(e, "name", ""), AttributeOr(e, "id", ""))
  }

  /** The findings one step records for a page, before the oracle is asked anything. */
  function PageFindings(p: Page, queryOf: string -> QueryParams): (r: seq<Finding>)
    ensures |r| <= 2
  {
    var params := queryOf(p.url);
    var inputs := SelectSearchInputs(p.inputs);
    (if params != [] then [QueryFinding(p.url, params)] else [])
      + (if inputs != [] then [InputFinding(p.url, InputDetails(inputs))] else [])
  }

  /** A page's findings all carry its URL; there are none exactly when the URL has no
      query parameters and no input matches the selector; a query finding is among
      them exactly when the URL has query parameters. */
  lemma PageFindingsShape(p: Page, queryOf: string -> QueryParams)
    ensures forall k :: 0 <= k < |PageFindings(p, queryOf)| ==> PageFindings(p, queryOf)[k].url == p.url
    ensures PageFindings(p, queryOf) == [] <==>
      queryOf(p.url) == [] && forall k :: 0 <= k < |p.inputs| ==> !MatchesSearchSelector(p.inputs[k])
    ensures (exists k :: 0 <= k < |PageFindings(p, queryOf)| && PageFindings(p, queryOf)[k].QueryFinding?)
      <==> queryOf(p.url) != []
    ensures (exists k :: 0 <= k < |PageFindings(p, queryOf)| && PageFindings(p, queryOf)[k].InputFinding?)
      <==> exists j :: 0 <= j < |p.inputs| && MatchesSearchSelector(p.inputs[j])
  {
    var r := PageFindings(p, queryOf);
    SelectSearchInputsEmpty(p.inputs);
    if queryOf(p.url) != [] {
      assert r[0].QueryFinding?;
    }
    if SelectSearchInputs(p.inputs) != [] {
      assert r[|r| - 1].InputFinding?;
    }
  }

  /** An input without a `type` attribute is listed in the page state as a text input,
      but the selector that records findings does not match it. */
  lemma UntypedInputListedNotRecorded(e: Element)
    requires "type" !in e.attributes
    ensures SearchInputs([e]) == [InputInfoOf(e)]
    ensures SelectSearchInputs([e]) == []
  {
    UntypedInputListedAsText(e);
  }

  /** The two tests differ on case too: an input of type "TEXT" is recorded as a finding,
      but the page state, which compares the type exactly, does not list it. */
  lemma UpperCaseInputRecordedNotListed(e: Element)
    requires "type" in e.attributes && e.attributes["type"] == "TEXT"
    ensures SelectSearchInputs([e]) == [e]
    ensures SearchInputs([e]) == []
  {
    assert Lower("TEXT") == "text";
    assert [e][1..] == [];
    SearchInputsOne(e);
  }

  /** How the crawl ended: still going, the step budget, the oracle's "done", or a failed
      oracle call (which raises out of the crawl). */
  datatype Stop = Running | StepBound | OracleDone | OracleFailed

  /** The crawl's state: `steps`, `visited_urls`, `findings`, the pages whose state
      was put to the oracle so far (one prompt each, see `PromptFor`), and the browser. */
  datatype CrawlState = CrawlState(steps: nat, visited: set<string>, findings: seq<Finding>,
                                   shown: seq<Page>, browser: BrowserState, stop: Stop)

  /** The crawl's inputs. The oracle answers the n-th prompt with `replies[n]` and fails
      when there is none; `queryOf` is `parse_qs(urlparse(url).query)` and `resolve`
      is `urljoin`. */
  datatype Setup = Setup(target: string, maxSteps: int, replies: seq<string>,
                         queryOf: string -> QueryParams, resolve: (string, string) -> string)

  function Start(target: string, b: BrowserState): CrawlState {
    CrawlState(0, {target}, [], [], b, Running)
  }

  /** The prompt sent for a page: `create_prompt` applied to `capture_page_state`. */
  function PromptFor(p: Page, s: Setup): string {
    CreatePrompt(PageStateText(p, s.queryOf), s.target)
  }

  /** One pass of the loop body. */
  function Iterate(c: CrawlState, s: Setup): (r: CrawlState)
    requires c.stop.Running?
    ensures r.stop.Running? ==> r.steps == c.steps + 1
    ensures !r.stop.Running? ==> r.steps == c.steps
    ensures |r.shown| == |c.shown| + 1 && r.shown[..|c.shown|] == c.shown
    ensures |c.findings| <= |r.findings| <= |c.findings| + 2 && r.findings[..|c.findings|] == c.findings
    ensures c.visited <= r.visited && r.visited - c.visited <= {r.browser.page.url}
    ensures r.stop.OracleFailed? <==> |c.shown| >= |s.replies|
    ensures r.stop.OracleDone? <==> |c.shown| < |s.replies| && Strip(s.replies[|c.shown|]) == "done"
  {
    var o := Observed(c, s);
    if |c.shown| >= |s.replies| then o.(stop := OracleFailed)
    else
      var command := Strip(s.replies[|c.shown|]);
      ExecuteOutcome(command, c.browser, s.resolve);
      Settle(o, Execute(command, c.browser, s.resolve))
  }

  /** The first half of a step: the page's findings are recorded and a prompt built
      from its state is sent. */
  function Observed(c: CrawlState, s: Setup): (r: CrawlState)
    ensures |r.shown| == |c.shown| + 1 && r.shown[..|c.shown|] == c.shown
    ensures |c.findings| <= |r.findings| <= |c.findings| + 2 && r.findings[..|c.findings|] == c.findings
  {
    var page := c.browser.page;
    var findings := c.findings + PageFindings(page, s.queryOf);
    var shown := c.shown + [page];
    assert findings[..|c.findings|] == c.findings && shown[..|c.shown|] == c.shown;
    c.(findings := findings, shown := shown)
  }

  /** The second half of a step: the executed command's status and the browser after it. */
  function Settle(o: CrawlState, outcome: (Status, BrowserState)): CrawlState {
    match outcome.0
    case Done => o.(browser := outcome.1, stop := OracleDone)
    case Error => o.(steps := o.steps + 1, browser := outcome.1)
    case Success => o.(steps := o.steps + 1, visited := o.visited + {outcome.1.page.url}, browser := outcome.1)
  }

  /** The loop: it runs while `steps < max_steps` and the crawl has not stopped. */
  function Run(c: CrawlState, s: Setup): (r: CrawlState)
    decreases if c.stop.Running? then 1 else 0, s.maxSteps - c.steps
  {
    if !c.stop.Running? then c
    else if c.steps >= s.maxSteps then c.(stop := StepBound)
    else Run(Iterate(c, s), s)
  }

  /** The prompts sent so far number the steps taken (every prompt but a last "done"
      or failed one completed a step), and none was left unanswered. */
  predicate Aligned(c: CrawlState, s: Setup) {
    |c.shown| == c.steps <= |s.replies|
  }

  /** How a run from a running, aligned state ends: it stops; the step counter never
      passes the budget it started under; and the oracle is asked exactly once per
      completed step plus once for a stopping "done" or failure. */
  lemma {:induction false} RunStops(c: CrawlState, s: Setup)
    requires c.stop.Running? && Aligned(c, s)
    ensures var r := Run(c, s);
      && !r.stop.Running?
      && c.steps <= r.steps
      && (c.steps <= s.maxSteps ==> r.steps <= s.maxSteps)
      && (r.stop.StepBound? ==> r.steps == if c.steps <= s.maxSteps then s.maxSteps else c.steps)
      && (r.stop.StepBound? ==> |r.shown| == r.steps)
      && (r.stop.OracleDone? ==> |r.shown| == r.steps + 1 && r.steps < |s.replies| && Strip(s.replies[r.steps]) == "done")
      && (r.stop.OracleFailed? ==> |r.shown| == r.steps + 1 == |s.replies| + 1)
      && (!r.stop.StepBound? ==> r.steps < s.maxSteps)
    decreases s.maxSteps - c.steps
  {
    if c.steps < s.maxSteps {
      var next := Iterate(c, s);
      if next.stop.Running? {
        RunStops(next, s);
      } else {
        assert Run(c, s) == next;
      }
    }
  }

  /** What a run keeps: the visited set, the findings and the pages shown to the oracle
      only grow, and each prompt adds at most two findings. */
  lemma {:induction false} RunGrows(c: CrawlState, s: Setup)
    ensures var r := Run(c, s);
      && c.visited <= r.visited
      && |c.findings| <= |r.findings| && r.findings[..|c.findings|] == c.findings
      && |c.shown| <= |r.shown| && r.shown[..|c.shown|] == c.shown
      && |r.findings| - |c.findings| <= 2 * (|r.shown| - |c.shown|)
    decreases if c.stop.Running? then 1 else 0, s.maxSteps - c.steps
  {
    if c.stop.Running? && c.steps < s.maxSteps {
      var next := Iterate(c, s);
      RunGrows(next, s);
      var r := Run(next, s);
      assert Run(c, s) == r;
      PrefixOfPrefix(c.findings, next.findings, r.findings);
      PrefixOfPrefix(c.shown, next.shown, r.shown);
    }
  }

  /** A prefix of a prefix is a prefix. */
  lemma PrefixOfPrefix<T>(a: seq<T>, b: seq<T>, c: seq<T>)
    requires |a| <= |b| <= |c| && b[..|a|] == a && c[..|b|] == b
    ensures c[..|a|] == a
  {
    assert c[..|a|] == c[..|b|][..|a|];
  }

  /** The report of a crawl: the target URL is visited whatever happens; no more than
      `max_steps` steps are taken and no more than `max_steps` prompts are sent (none
      when the budget is not positive); and findings number at most two per prompt. */
  lemma CrawlReport(s: Setup, b: BrowserState)
    ensures var r := Run(Start(s.target, b), s);
      && s.target in r.visited
      && r.steps <= (if s.maxSteps > 0 then s.maxSteps else 0)
      && |r.shown| <= (if s.maxSteps > 0 then s.maxSteps else 0)
      && |r.findings| <= 2 * |r.shown|
      && (r.stop.StepBound? <==> |r.shown| == r.steps)
  {
    RunStops(Start(s.target, b), s);
    RunGrows(Start(s.target, b), s);
  }

  /** If the first `k` replies are not "done" and the next one is, within the budget and
      the replies on hand, the crawl stops on that reply after exactly `k` steps. */
  lemma {:induction false} DoneAfter(c: CrawlState, s: Setup, k: nat)
    requires c.stop.Running? && Aligned(c, s) && c.steps <= k
    requires k < s.maxSteps && k < |s.replies|
    requires forall j :: c.steps <= j < k ==> Strip(s.replies[j]) != "done"
    requires Strip(s.replies[k]) == "done"
    ensures Run(c, s).stop.OracleDone? && Run(c, s).steps == k
    decreases k - c.steps
  {
    var next := Iterate(c, s);
    if c.steps < k {
      assert Strip(s.replies[|c.shown|]) != "done";
      assert next.stop.Running? && next.steps == c.steps + 1;
      DoneAfter(next, s, k);
      assert Run(c, s) == Run(next, s);
    } else {
      assert next.stop.OracleDone? && next.steps == k;
      assert Run(c, s) == next;
    }
  }

  /** With a budget of three steps and an oracle answering "scroll", "scroll", "done",
      the crawl stops on the oracle's "done" after two completed steps, whatever the
      pages do. */
  lemma DoneOnThirdReply(target: string, b: BrowserState, queryOf: string -> QueryParams,
                         resolve: (string, string) -> string)
    ensures var s := Setup(target, 3, ["scroll", "scroll", "done"], queryOf, resolve);
      Run(Start(target, b), s).stop.OracleDone? && Run(Start(target, b), s).steps == 2
  {
    var s := Setup(target, 3, ["scroll", "scroll", "done"], queryOf, resolve);
    StripTrimmed("scroll");
    StripTrimmed("done");
    DoneAfter(Start(target, b), s, 2);
  }

  /** One step, seen through the command it executes: "done" stops without counting
      a step; any other outcome counts exactly one; only a success adds the current
      URL to the visited set; the step's findings are recorded whatever the outcome. */
  lemma StepEffects(c: CrawlState, s: Setup)
    requires c.stop.Running? && |c.shown| < |s.replies|
    ensures var (status, after) := Execute(Strip(s.replies[|c.shown|]), c.browser, s.resolve);
      var r := Iterate(c, s);
      && r.browser == after
      && (r.stop.OracleDone? <==> status == Done)
      && (status == Done ==> r.steps == c.steps)
      && (status != Done ==> r.stop.Running? && r.steps == c.steps + 1)
      && r.visited == (if status == Success then c.visited + {after.page.url} else c.visited)
      && r.findings == c.findings + PageFindings(c.browser.page, s.queryOf)
  {
  }

  /** The live crawl on a session: `steps`, `visited_urls` and `findings` are updated in
      place exactly as the loop of the source does. */
  method AutomatedCrawl(session: Session, target: string, maxSteps: int, replies: seq<string>,
                        queryOf: string -> QueryParams, resolve: (string, string) -> string)
    returns (report: CrawlState)
    modifies session
    ensures report == Run(Start(target, old(session.State())), Setup(target, maxSteps, replies, queryOf, resolve))
    ensures report.browser == session.State()
  {
    var setup := Setup(target, maxSteps, replies, queryOf, resolve);
    ghost var start := Start(target, session.State());
    var visited := {target};
    var steps: nat := 0;
    var findings: seq<Finding> := [];
    var shown: seq<Page> := [];
    while steps < maxSteps
      invariant Run(CrawlState(steps, visited, findings, shown, session.State(), Running), setup) == Run(start, setup)
      decreases maxSteps - steps
    {
      var next := CrawlStep(session, setup, steps, visited, findings, shown);
      if !next.stop.Running? {
        report := next;
        return;
      }
      steps, visited, findings, shown := next.steps, next.visited, next.findings, next.shown;
    }
    report := CrawlState(steps, visited, findings, shown, session.State(), StepBound);
  }

  /** One pass of the loop body on the session: capture, record, ask, execute. A
      result that is no longer running is the loop's `break` ("done") or the oracle
      call raising. */
  method CrawlStep(session: Session, setup: Setup, steps: nat, visited: set<string>,
                   findings: seq<Finding>, shown: seq<Page>)
    returns (next: CrawlState)
    modifies session
    ensures next == Iterate(CrawlState(steps, visited, findings, shown, old(session.State()), Running), setup)
    ensures next.browser == session.State()
  {
    var current := CrawlState(steps, visited, findings, shown, session.State(), Running);
    var observed, prompt := RecordPage(session, setup, current);
    if |shown| >= |setup.replies| {
      return observed.(stop := OracleFailed);
    }
    var command := Strip(setup.replies[|shown|]);
    var result := ExecuteCommand(session, command, setup.resolve);
    ghost var outcome := (result, session.State());
    assert Iterate(current, setup) == Settle(observed, outcome);
    if result == Done {
      return observed.(browser := session.State(), stop := OracleDone);
    } else if result == Error {
      return observed.(steps := steps + 1, browser := session.State());
    }
    var visited := visited;
    if session.page.url !in visited {
      visited := visited + {session.page.url};
    } else {
      AddPresent(visited, session.page.url);
    }
    return observed.(steps := steps + 1, visited := visited, browser := session.State());
  }

  /** The first half of the loop body: the page state is captured and the prompt
      built from it (`PromptFor`; the oracle's answer is the next scripted reply,
      whatever the prompt says), and the findings for the page are appended. */
  method RecordPage(session: Session, setup: Setup, current: CrawlState)
    returns (observed: CrawlState, prompt: string)
    requires current.browser == session.State()
    ensures observed == Observed(current, setup)
    ensures prompt == PromptFor(session.page, setup)
  {
    var page := session.page;
    var findings := current.findings;
    var pageState := CapturePageState(session, setup.queryOf);
    var params := setup.queryOf(page.url);
    if params != [] {
      findings := findings + [QueryFinding(page.url, params)];
    }
    var inputs := SelectSearchInputs(page.inputs);
    if inputs != [] {
      findings := findings + [InputFinding(page.url, InputDetails(inputs))];
    }
    assert findings == current.findings + PageFindings(page, setup.queryOf) by {
      assert (current.findings + []) == current.findings;
    }
    prompt := CreatePrompt(pageState, setup.target);
    observed := current.(findings := findings, shown := current.shown + [page]);
  }

  lemma AddPresent<T>(s: set<T>, x: T)
    requires x in s
    ensures s + {x} == s
  {
  }
}
