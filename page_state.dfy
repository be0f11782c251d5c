/** The page summary the crawler shows the oracle (`capture_page_state`) and the prompt
    wrapped around it (`create_prompt`), connect.py lines 16-62. */
module PageState {
  import opened Strings
  import opened Browser

  /** `parse_qs(urlparse(url).query)`: each key with its values, in the order the dict
      keeps them. URL parsing itself is supplied by the caller as a function. */
  type QueryParams = seq<(string, seq<string>)>

  /** What `capture_page_state` reads from one `<input>`. */
  datatype InputInfo = InputInfo(kind: string, name: string, id: string, placeholder: string)

  /** A missing or empty `type` counts as "text"; missing or empty others as "". */
  function InputInfoOf(e: Element): InputInfo {
    InputInfo(AttributeOr(e, "type", "text"), AttributeOr(e, "name", ""),
              AttributeOr(e, "id", ""), AttributeOr(e, "placeholder", ""))
  }

  predicate IsSearchKind(kind: string) {
    kind == "text" || kind == "search"
  }

  /** The inputs `capture_page_state` lists, in document order. */
  function SearchInputs(inputs: seq<Element>): (r: seq<InputInfo>)
    ensures |r| <= |inputs|
    ensures forall k :: 0 <= k < |r| ==> IsSearchKind(r[k].kind)
  {
    if inputs == [] then []
    else
      var info := InputInfoOf(inputs[0]);
      (if IsSearchKind(info.kind) then [info] else []) + SearchInputs(inputs[1..])
  }

  /** Listing is a filter: it distributes over concatenation, so order is kept. */
  lemma {:induction false} SearchInputsAppend(a: seq<Element>, b: seq<Element>)
    ensures SearchInputs(a + b) == SearchInputs(a) + SearchInputs(b)
  {
    if a != [] {
      assert (a + b)[0] == a[0] && (a + b)[1..] == a[1..] + b;
      SearchInputsAppend(a[1..], b);
      var info := InputInfoOf(a[0]);
      var first := if IsSearchKind(info.kind) then [info] else [];
      calc {
        SearchInputs(a + b);
        first + SearchInputs(a[1..] + b);
        first + (SearchInputs(a[1..]) + SearchInputs(b));
        (first + SearchInputs(a[1..])) + SearchInputs(b);
        SearchInputs(a) + SearchInputs(b);
      }
    } else {
      assert a + b == b;
    }
  }

  /** A single input is listed exactly when its type (default "text") is text or search. */
  lemma SearchInputsOne(e: Element)
    ensures SearchInputs([e]) == if IsSearchKind(InputInfoOf(e).kind) then [InputInfoOf(e)] else []
  {
    assert [e][1..] == [];
  }

  /** An input whose `type` is missing or empty is listed, as a text input. */
  lemma UntypedInputListedAsText(e: Element)
    requires "type" !in e.attributes || e.attributes["type"] == ""
    ensures SearchInputs([e]) == [InputInfoOf(e)] && InputInfoOf(e).kind == "text"
  {
    SearchInputsOne(e);
  }

  function InputDescription(i: InputInfo): string {
    "Input (type='" + i.kind + "', name='" + i.name + "', id='" + i.id
      + "', placeholder='" + i.placeholder + "')"
  }

  function Descriptions(infos: seq<InputInfo>): (r: seq<string>)
    ensures |r| == |infos|
  {
    seq(|infos|, k requires 0 <= k < |infos| => InputDescription(infos[k]))
  }

  lemma DescriptionsAppend(a: seq<InputInfo>, b: seq<InputInfo>)
    ensures Descriptions(a + b) == Descriptions(a) + Descriptions(b)
  {
    assert forall k :: 0 <= k < |a + b| ==> Descriptions(a + b)[k] == (Descriptions(a) + Descriptions(b))[k];
  }

  /** One more input adds its description, or nothing, to those of the inputs before it. */
  lemma DescriptionsStep(prefix: seq<Element>, e: Element)
    ensures Descriptions(SearchInputs(prefix + [e])) == Descriptions(SearchInputs(prefix))
      + (if IsSearchKind(InputInfoOf(e).kind) then [InputDescription(InputInfoOf(e))] else [])
  {
    SearchInputsAppend(prefix, [e]);
    SearchInputsOne(e);
    DescriptionsAppend(SearchInputs(prefix), SearchInputs([e]));
  }

  /** The loop that builds `input_descriptions`. */
  method DescribeInputs(inputs: seq<Element>) returns (descriptions: seq<string>)
    ensures descriptions == Descriptions(SearchInputs(inputs))
  {
    descriptions := [];
    for i := 0 to |inputs|
      invariant descriptions == Descriptions(SearchInputs(inputs[..i]))
    {
      var e := inputs[i];
      var kind := AttributeOr(e, "type", "text");
      var name := AttributeOr(e, "name", "");
      var id := AttributeOr(e, "id", "");
      var placeholder := AttributeOr(e, "placeholder", "");
      var info := InputInfo(kind, name, id, placeholder);
      assert info == InputInfoOf(e);
      assert inputs[..i + 1] == inputs[..i] + [e];
      DescriptionsStep(inputs[..i], e);
      if kind == "text" || kind == "search" {
        descriptions := descriptions + [InputDescription(info)];
      }
    }
    assert inputs[..|inputs|] == inputs;
  }

  /** The `href`s of the links that have a non-empty one, in document order. */
  function LinkHrefs(links: seq<Element>): (r: seq<string>)
    ensures |r| <= |links|
    ensures forall k :: 0 <= k < |r| ==> r[k] != ""
  {
    if links == [] then []
    else
      var href := AttributeOr(links[0], "href", "");
      (if href != "" then [href] else []) + LinkHrefs(links[1..])
  }

  lemma {:induction false} LinkHrefsAppend(a: seq<Element>, b: seq<Element>)
    ensures LinkHrefs(a + b) == LinkHrefs(a) + LinkHrefs(b)
  {
    if a != [] {
      assert (a + b)[0] == a[0] && (a + b)[1..] == a[1..] + b;
      LinkHrefsAppend(a[1..], b);
      var href := AttributeOr(a[0], "href", "");
      var first := if href != "" then [href] else [];
      calc {
        LinkHrefs(a + b);
        first + LinkHrefs(a[1..] + b);
        first + (LinkHrefs(a[1..]) + LinkHrefs(b));
        (first + LinkHrefs(a[1..])) + LinkHrefs(b);
        LinkHrefs(a) + LinkHrefs(b);
      }
    } else {
      assert a + b == b;
    }
  }

  /** A single link is kept, with its `href`, exactly when that attribute is present and non-empty. */
  lemma LinkHrefsOne(e: Element)
    ensures LinkHrefs([e]) == if "href" in e.attributes && e.attributes["href"] != ""
                              then [e.attributes["href"]] else []
  {
    assert [e][1..] == [];
  }

  /** Python `repr` of a list of strings, without escaping. */
  function ReprList(values: seq<string>): string {
    "[" + Join(seq(|values|, k requires 0 <= k < |values| => "'" + values[k] + "'"), ", ") + "]"
  }

  function ParamLines(params: QueryParams): (r: seq<string>)
    ensures |r| == |params|
  {
    seq(|params|, k requires 0 <= k < |params| => params[k].0 + ": " + ReprList(params[k].1))
  }

  /** The lines of a section, joined, or its placeholder when there are none. */
  function Section(lines: seq<string>, placeholder: string): string {
    if lines == [] then placeholder else Join(lines, "\n")
  }

  /** Lines without a line break, joined and split at line breaks, come back unchanged. */
  lemma SplitJoinLines(lines: seq<string>)
    requires lines != [] && AllSingleLine(lines)
    ensures Split(Join(lines, "\n"), "\n") == lines
  {
    SplitJoin(lines, '\n');
  }

  function ParamsDescription(params: QueryParams): string {
    if params == [] then "No query parameters found."
    else "Query Parameters:" + "\n" + Join(ParamLines(params), "\n")
  }

  /** The page-state text: URL, query parameters, listed inputs, links. */
  function RenderPageState(url: string, params: QueryParams, inputs: seq<string>, links: seq<string>): string {
    var header := "Current URL: " + url;
    var inputsPart := "Input Fields:" + "\n" + Section(inputs, "No input fields found.");
    var linksPart := "Links:" + "\n" + Section(links, "No links found.");
    header + "\n" + ParamsDescription(params) + "\n" + inputsPart + "\n" + linksPart
  }

  /** What `capture_page_state` returns for a page. */
  function PageStateText(p: Page, queryOf: string -> QueryParams): string {
    RenderPageState(p.url, queryOf(p.url), Descriptions(SearchInputs(p.inputs)), LinkHrefs(p.links))
  }

  /** Reads the live page; changes nothing. */
  method CapturePageState(session: Session, queryOf: string -> QueryParams) returns (state: string)
    ensures state == PageStateText(session.page, queryOf)
  {
    var params := queryOf(session.page.url);
    var inputDescriptions := DescribeInputs(session.page.inputs);
    var links := LinkHrefs(session.page.links);
    state := RenderPageState(session.page.url, params, inputDescriptions, links);
  }

  /** A section read line by line: its lines, or its one placeholder line. */
  function SectionLines(lines: seq<string>, placeholder: string): seq<string> {
    if lines == [] then [placeholder] else lines
  }

  function ParamsLines(params: QueryParams): seq<string> {
    if params == [] then ["No query parameters found."] else ["Query Parameters:"] + ParamLines(params)
  }

  /** The page state read line by line: a header line and then the section's lines,
      each empty section replaced by its one placeholder line. */
  function ExpectedLines(url: string, params: QueryParams, inputs: seq<string>, links: seq<string>): seq<string> {
    ["Current URL: " + url] + ParamsLines(params)
      + (["Input Fields:"] + SectionLines(inputs, "No input fields found."))
      + (["Links:"] + SectionLines(links, "No links found."))
  }

  predicate SingleLine(s: string) {
    '\n' !in s
  }

  predicate AllSingleLine(lines: seq<string>) {
    forall k :: 0 <= k < |lines| ==> SingleLine(lines[k])
  }

  lemma AllSingleLineAppend(a: seq<string>, b: seq<string>)
    requires AllSingleLine(a) && AllSingleLine(b)
    ensures AllSingleLine(a + b)
  {
    assert forall k :: |a| <= k < |a + b| ==> (a + b)[k] == b[k - |a|];
  }

  /** Four non-empty groups of lines, joined: the groups' joins with a line break between. */
  lemma JoinFour(a: seq<string>, b: seq<string>, c: seq<string>, d: seq<string>)
    requires a != [] && b != [] && c != [] && d != []
    ensures Join(a + b + c + d, "\n") ==
      Join(a, "\n") + "\n" + Join(b, "\n") + "\n" + Join(c, "\n") + "\n" + Join(d, "\n")
  {
    JoinAppend(a, b, "\n");
    JoinAppend(a + b, c, "\n");
    JoinAppend(a + b + c, d, "\n");
  }

  /** A section's lines, joined, give the section. */
  lemma JoinSectionLines(lines: seq<string>, placeholder: string)
    ensures Join(SectionLines(lines, placeholder), "\n") == Section(lines, placeholder)
  {
  }

  /** A titled section's lines, joined: the title, a line break, then the section. */
  lemma JoinTitled(title: string, lines: seq<string>, placeholder: string)
    ensures Join([title] + SectionLines(lines, placeholder), "\n") == title + "\n" + Section(lines, placeholder)
  {
    JoinCons(title, SectionLines(lines, placeholder), "\n");
    JoinSectionLines(lines, placeholder);
  }

  /** The page state is its expected lines joined by line breaks. */
  lemma RenderedIsJoin(url: string, params: QueryParams, inputs: seq<string>, links: seq<string>)
    ensures Join(ExpectedLines(url, params, inputs, links), "\n") == RenderPageState(url, params, inputs, links)
  {
    var head := ["Current URL: " + url];
    var ps := ParamsLines(params);
    var ins := ["Input Fields:"] + SectionLines(inputs, "No input fields found.");
    var ls := ["Links:"] + SectionLines(links, "No links found.");
    JoinFour(head, ps, ins, ls);
    assert Join(ps, "\n") == ParamsDescription(params) by {
      if params != [] {
        JoinCons("Query Parameters:", ParamLines(params), "\n");
      }
    }
    JoinTitled("Input Fields:", inputs, "No input fields found.");
    JoinTitled("Links:", links, "No links found.");
  }

  /** When no URL, parameter, input description or link holds a line break, the page
      state splits back into exactly the expected lines. */
  lemma RenderedLines(url: string, params: QueryParams, inputs: seq<string>, links: seq<string>)
    requires SingleLine(url)
    requires AllSingleLine(ParamLines(params))
    requires AllSingleLine(inputs)
    requires AllSingleLine(links)
    ensures Split(RenderPageState(url, params, inputs, links), "\n") == ExpectedLines(url, params, inputs, links)
  {
    var head := ["Current URL: " + url];
    var ps := ParamsLines(params);
    var ins := ["Input Fields:"] + SectionLines(inputs, "No input fields found.");
    var ls := ["Links:"] + SectionLines(links, "No links found.");
    assert AllSingleLine(head) by {
      assert SingleLine("Current URL: " + url);
    }
    assert AllSingleLine(ps) by {
      if params != [] {
        assert AllSingleLine(["Query Parameters:"]);
        AllSingleLineAppend(["Query Parameters:"], ParamLines(params));
      } else {
        assert SingleLine("No query parameters found.");
      }
    }
    assert AllSingleLine(ins) by {
      assert AllSingleLine(["Input Fields:"]);
      assert AllSingleLine(SectionLines(inputs, "No input fields found."));
      AllSingleLineAppend(["Input Fields:"], SectionLines(inputs, "No input fields found."));
    }
    assert AllSingleLine(ls) by {
      assert AllSingleLine(["Links:"]);
      assert AllSingleLine(SectionLines(links, "No links found."));
      AllSingleLineAppend(["Links:"], SectionLines(links, "No links found."));
    }
    AllSingleLineAppend(head, ps);
    AllSingleLineAppend(head + ps, ins);
    AllSingleLineAppend(head + ps + ins, ls);
    RenderedIsJoin(url, params, inputs, links);
    SplitJoinLines(head + ps + ins + ls);
  }

  const PromptTask := " to find potential search parameters (e.g., URL query params like ?q=) "
    + "and input fields (e.g., <input type='text'> or <input type='search'>). Here is the current webpage state:\n\n"

  const PromptCommands := "\n\n"
    + "Suggest the next action to explore the site and locate more search parameters or input fields. Respond with one of the following commands:\n"
    + "- 'click: <selector>' to click an element (e.g., 'click: button#submit')\n"
    + "- 'fill: <selector>, value: <value>' to fill an input field (e.g., 'fill: input[name='search'], value: \"test\"')\n"
    + "- 'navigate: <url>' to navigate to a URL (e.g., 'navigate: /search')\n"
    + "- 'scroll' to scroll down\n"
    + "- 'done' if there are no more actions to take\n"

  const PromptClosing := "Ensure <selector> is a valid CSS selector."

  /** The prompt sent to the oracle: the site, the task, the page state, the
      command list and the closing instruction. */
  function CreatePrompt(pageState: string, targetUrl: string): string {
    var intro := "I want you to crawl the website '" + targetUrl + "'" + PromptTask;
    intro + pageState + (PromptCommands + PromptClosing)
  }

  /** The prompt names the site first, embeds the page state, and ends with the
      instruction about selectors. */
  lemma PromptShape(pageState: string, targetUrl: string)
    ensures StartsWith(CreatePrompt(pageState, targetUrl), "I want you to crawl the website '" + targetUrl + "'")
    ensures Contains(CreatePrompt(pageState, targetUrl), pageState)
    ensures EndsWith(CreatePrompt(pageState, targetUrl), PromptClosing)
  {
    var site := "I want you to crawl the website '" + targetUrl + "'";
    var intro := site + PromptTask;
    var tail := PromptCommands + PromptClosing;
    assert StartsWith(site, site);
    StartsWithExtend(site, PromptTask, site);
    StartsWithExtend(intro, pageState, site);
    StartsWithExtend(intro + pageState, tail, site);
    OccursInMiddle(intro, pageState, tail);
    assert EndsWith(PromptClosing, PromptClosing);
    EndsWithExtend(PromptCommands, PromptClosing, PromptClosing);
    EndsWithExtend(intro + pageState, tail, PromptClosing);
  }
}
