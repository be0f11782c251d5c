/** The browser page the crawler drives (a Playwright page in the source), seen only
    through what the crawler reads and the calls it makes.

    The page's reaction to each call is supplied as a script of effects, one consumed
    per call: the call raises, leaves the page as it is, or leaves it on another page
    (a click that follows a link, a submitted form, a navigation, a redirect). A call
    that raises may still have moved the page on, as a navigation that commits and then
    times out does. Every property proved over all scripts therefore holds for every
    deterministic behaviour of the real browser. */
module Browser {
  import opened Wrappers

  /** An element handle, seen through its attributes. */
  datatype Element = Element(attributes: map<string, string>)

  /** Playwright `get_attribute(name)`: the value, or `None` when the attribute is absent. */
  function GetAttribute(e: Element, name: string): Option<string> {
    if name in e.attributes then Some(e.attributes[name]) else None
  }

  /** Python `e.get_attribute(name) or default`: an absent or empty attribute gives the default. */
  function AttributeOr(e: Element, name: string, default: string): (r: string)
    ensures r == default || (name in e.attributes && r == e.attributes[name] != "")
    ensures name in e.attributes && e.attributes[name] != "" ==> r == e.attributes[name]
  {
    match GetAttribute(e, name)
    case Some(v) => if v != "" then v else default
    case None => default
  }

  /** What the crawler reads from a page: its URL, every `<input>` and every `<a>` element,
      in document order. */
  datatype Page = Page(url: string, inputs: seq<Element>, links: seq<Element>)

  /** The page calls `execute_command` makes. */
  datatype Call =
    | Click(selector: string)
    | Fill(selector: string, value: string)
    | SubmitEnclosingForm(selector: string)   // the `closest("form")` probe and the submit click
    | Goto(url: string)
    | Evaluate(expression: string)
    | WaitForLoadState(state: string)

  /** How the page reacts to one call: it raises (leaving the page where it was, or on
      the page it had already moved to), it stays, or it loads another page. */
  datatype Effect = Raise(after: Option<Page>) | Stay | Load(page: Page)

  /** The page a reaction leaves the browser on. */
  function PageAfter(e: Effect, current: Page): Page {
    match e
    case Load(p) => p
    case Raise(Some(p)) => p
    case _ => current
  }

  /** A browser as a value: the current page, the reactions still to come, and the calls made. */
  datatype BrowserState = BrowserState(page: Page, script: seq<Effect>, log: seq<Call>)

  /** One page call: it is logged, it consumes the next effect (an exhausted script
      means the page stays as it is), and it succeeds unless that effect raises. */
  function Perform(b: BrowserState, c: Call): (r: (bool, BrowserState))
    ensures r.1.log == b.log + [c]
    ensures r.0 <==> b.script == [] || !b.script[0].Raise?
    ensures r.1.script == if b.script == [] then [] else b.script[1..]
    ensures r.1.page == if b.script == [] then b.page else PageAfter(b.script[0], b.page)
  {
    if b.script == [] then (true, b.(log := b.log + [c]))
    else (!b.script[0].Raise?, BrowserState(PageAfter(b.script[0], b.page), b.script[1..], b.log + [c]))
  }

  /** A live page. Its fields change in place as calls are made on it. */
  class Session {
    var page: Page
    var script: seq<Effect>
    var log: seq<Call>

    function State(): BrowserState
      reads this
    {
      BrowserState(page, script, log)
    }

    constructor (start: Page, reactions: seq<Effect>)
      ensures State() == BrowserState(start, reactions, [])
    {
      page := start;
      script := reactions;
      log := [];
    }

    /** Makes one call on the page; `ok` is false where Playwright raises. */
    method Invoke(c: Call) returns (ok: bool)
      modifies this
      ensures (ok, State()) == Perform(old(State()), c)
    {
      log := log + [c];
      if script == [] {
        ok := true;
      } else {
        var effect := script[0];
        script := script[1..];
        ok := !effect.Raise?;
        page := PageAfter(effect, page);
      }
    }
  }
}
