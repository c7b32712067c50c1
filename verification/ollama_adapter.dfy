/** `OllamaAdapter.classify_ticket` of src/adapters/ollama_adapter.py: the exact
    prompt it builds, and how it turns the HTTP reply into a category. The HTTP
    exchange itself is an input: a parsed JSON body, a malformed one, or a
    `requests` exception. */
module OllamaAdapter {
  import opened Wrappers
  import opened Text
  import opened Provider

  // ---- Python's repr of the category list ----

  /** The quote `repr` picks: double quotes only when the text holds a single
      quote and no double quote. */
  function ReprQuote(s: string): char {
    if '\'' in s && '"' !in s then '"' else '\''
  }

  /** `repr` of one character inside a string quoted with `q`. Characters past
      U+00FF are written verbatim. */
  function ReprChar(c: char, q: char): string {
    if c == q || c == '\\' then ['\\', c]
    else if c == '\t' then "\\t"
    else if c == '\n' then "\\n"
    else if c == '\r' then "\\r"
    else if c < ' ' || ('\U{7F}' <= c <= '\U{A0}') || c == '\U{AD}' then
      ['\\', 'x', HexDigits[c as int / 16], HexDigits[c as int % 16]]
    else [c]
  }

  function ReprBody(s: string, q: char): string {
    if |s| == 0 then "" else ReprChar(s[0], q) + ReprBody(s[1..], q)
  }

  /** Reads back the inside of a string literal: a backslash escape stands for
      the character it names, any other character for itself. */
  function Unrepr(b: string): string
    decreases |b|
  {
    if |b| == 0 then ""
    else if b[0] == '\\' && |b| >= 2 then
      if b[1] == 't' then "\t" + Unrepr(b[2..])
      else if b[1] == 'n' then "\n" + Unrepr(b[2..])
      else if b[1] == 'r' then "\r" + Unrepr(b[2..])
      else if b[1] == 'x' && |b| >= 4 then [(HexValue(b[2]) * 16 + HexValue(b[3])) as char] + Unrepr(b[4..])
      else [b[1]] + Unrepr(b[2..])
    else [b[0]] + Unrepr(b[1..])
  }

  /** Each escape `repr` writes reads back as the character it came from. */
  lemma ReprCharRoundTrip(c: char, q: char, rest: string)
    requires q == '\'' || q == '"'
    ensures Unrepr(ReprChar(c, q) + rest) == [c] + Unrepr(rest)
  {
    var e := ReprChar(c, q);
    var b := e + rest;
    if |e| == 4 {
      assert b[4..] == rest;
      HexDigitValue(c as int / 16);
      HexDigitValue(c as int % 16);
      assert HexValue(b[2]) * 16 + HexValue(b[3]) == c as int;
    } else if |e| == 2 {
      assert b[2..] == rest;
    } else {
      assert b[1..] == rest;
    }
  }

  lemma {:induction false} ReprBodyRoundTrip(s: string, q: char)
    requires q == '\'' || q == '"'
    ensures Unrepr(ReprBody(s, q)) == s
  {
    if |s| > 0 {
      ReprCharRoundTrip(s[0], q, ReprBody(s[1..], q));
      ReprBodyRoundTrip(s[1..], q);
      assert s == [s[0]] + s[1..];
    }
  }

  /** `repr(s)` for a `str`: a literal in the quote `repr` picks whose inside
      reads back as `s`. */
  function Repr(s: string): (r: string)
    ensures |r| >= 2 && r[0] == ReprQuote(s) && r[|r| - 1] == ReprQuote(s)
    ensures Unrepr(r[1..|r| - 1]) == s
  {
    var q := ReprQuote(s);
    var body := ReprBody(s, q);
    ReprBodyRoundTrip(s, q);
    assert ([q] + body + [q])[1..|body| + 1] == body;
    [q] + body + [q]
  }

  function JoinReprs(items: seq<string>): (j: string)
    ensures |items| > 0 ==> Repr(items[0]) <= j
  {
    if |items| == 0 then ""
    else if |items| == 1 then Repr(items[0])
    else Repr(items[0]) + ", " + JoinReprs(items[1..])
  }

  /** `f"{categories}"`, i.e. `repr` of a list of `str`: brackets around the
      items' literals, first item first. */
  function ListRepr(items: seq<string>): (r: string)
    ensures |r| >= 2 && r[0] == '[' && r[|r| - 1] == ']'
    ensures |items| == 0 <==> r == "[]"
    ensures |items| > 0 ==> "[" + Repr(items[0]) <= r
  {
    var j := JoinReprs(items);
    assert |items| > 0 ==> |j| >= 2;
    "[" + j + "]"
  }

  // ---- the prompt ----

  function RoleLine(categories: seq<string>): string {
    "Role: IT Service Desk Bot. Classify the ticket below into EXACTLY ONE of these categories: "
    + ListRepr(categories) + ".\n\n"
  }

  const ContextHeader: string := "Historical Context (Learn from these):\n"

  /** `ex.get(key, '')`. */
  function GetOrEmpty(ex: Example, key: string): string {
    if key in ex then ex[key] else ""
  }

  const LineStart: string := "- Ticket: '"
  const LineMiddle: string := "' -> Category: '"
  const LineEnd: string := "'\n"

  /** One example line; the texts are interpolated verbatim, newlines included. */
  function ExampleLine(ex: Example): string {
    LineStart + GetOrEmpty(ex, "description") + LineMiddle + GetOrEmpty(ex, "category") + LineEnd
  }

  function ExampleLines(exs: seq<Example>): string {
    if |exs| == 0 then "" else ExampleLine(exs[0]) + ExampleLines(exs[1..])
  }

  /** `if context_examples:` — both None and the empty list are falsy. */
  predicate HasExamples(examples: Option<seq<Example>>) {
    examples.Some? && |examples.value| > 0
  }

  function ContextBlock(examples: Option<seq<Example>>): string {
    if HasExamples(examples) then ContextHeader + ExampleLines(examples.value) else ""
  }

  function TicketLine(description: string): string {
    "\nNew Ticket to classify: '" + description + "'\n"
  }

  const ConstraintLine: string := "Constraint: Output ONLY the category name. No explanations, no markdown."

  /** The prompt sent to the local model: it opens with the role line listing
      the categories, continues with the context header exactly when there are
      examples, and closes with the ticket line and the output constraint.
      Without examples nothing stands between the role line and the ticket
      line. */
  function Prompt(call: Call): (p: string)
    ensures RoleLine(call.categories) <= p
    ensures !HasExamples(call.examples) ==> p == RoleLine(call.categories) + (TicketLine(call.description) + ConstraintLine)
    ensures HasExamples(call.examples) <==> ContextHeader <= p[|RoleLine(call.categories)|..]
    ensures |TicketLine(call.description) + ConstraintLine| <= |p|
    ensures p[|p| - |TicketLine(call.description) + ConstraintLine|..] == TicketLine(call.description) + ConstraintLine
  {
    var role, context, tail := RoleLine(call.categories), ContextBlock(call.examples), TicketLine(call.description) + ConstraintLine;
    HeaderOrTicketLine(call);
    Assemble(role, context, tail);
    role + (context + tail)
  }

  lemma Assemble(a: string, b: string, c: string)
    ensures a <= a + (b + c) && (a + (b + c))[|a|..] == b + c
    ensures |c| <= |a + (b + c)| && (a + (b + c))[|a + (b + c)| - |c|..] == c
    ensures b == "" ==> b + c == c
  {
  }

  /** After the role line comes the context header when there are examples and
      the ticket line (which opens with a newline) otherwise. */
  lemma HeaderOrTicketLine(call: Call)
    ensures var rest := ContextBlock(call.examples) + (TicketLine(call.description) + ConstraintLine);
      HasExamples(call.examples) <==> ContextHeader <= rest
  {
    var tail := TicketLine(call.description) + ConstraintLine;
    if HasExamples(call.examples) {
      var lines := ExampleLines(call.examples.value);
      assert ContextHeader + lines + tail == ContextHeader + (lines + tail);
    } else {
      assert tail[0] == '\n';
      assert ContextHeader[0] == 'H';
    }
  }

  /** Example lines are emitted one per example, in input order. */
  lemma {:induction false} ExampleLinesAppend(a: seq<Example>, b: seq<Example>)
    ensures ExampleLines(a + b) == ExampleLines(a) + ExampleLines(b)
  {
    if |a| == 0 {
      assert a + b == b;
    } else {
      assert (a + b)[1..] == a[1..] + b;
      ExampleLinesAppend(a[1..], b);
    }
  }

  /** The prompt is the role line, the context header, the example lines, the
      ticket line and the constraint; each example contributes exactly its own
      line, at its own position. */
  lemma PromptLayout(call: Call, i: nat)
    requires call.examples.Some? && i < |call.examples.value|
    ensures var exs := call.examples.value;
      Prompt(call) == RoleLine(call.categories) + ContextHeader
        + ExampleLines(exs[..i]) + ExampleLine(exs[i]) + ExampleLines(exs[i + 1..])
        + (TicketLine(call.description) + ConstraintLine)
  {
    var exs := call.examples.value;
    assert exs == exs[..i] + ([exs[i]] + exs[i + 1..]);
    ExampleLinesAppend(exs[..i], [exs[i]] + exs[i + 1..]);
    ExampleLinesAppend([exs[i]], exs[i + 1..]);
    assert ExampleLines([exs[i]]) == ExampleLine(exs[i]) + ExampleLines([]);
    var role, tail := RoleLine(call.categories), TicketLine(call.description) + ConstraintLine;
    var a, l, b := ExampleLines(exs[..i]), ExampleLine(exs[i]), ExampleLines(exs[i + 1..]);
    assert ContextBlock(call.examples) == ContextHeader + (a + (l + b));
    Regroup(role, ContextHeader, a, l, b, tail);
  }

  lemma Regroup(r: string, h: string, a: string, l: string, b: string, t: string)
    ensures r + ((h + (a + (l + b))) + t) == r + h + a + l + b + t
  {
  }

  /** A missing key renders as the empty string. */
  lemma MissingKeysRenderEmpty(ex: Example)
    requires "description" !in ex && "category" !in ex
    ensures ExampleLine(ex) == "- Ticket: '' -> Category: ''\n"
  {
  }

  lemma ExampleLinesOfTwo(first: Example, second: Example)
    ensures ExampleLines([first, second]) == ExampleLine(first) + ExampleLine(second)
  {
    assert [first, second][1..] == [second];
    assert ExampleLines([second]) == ExampleLine(second) + ExampleLines([]);
  }

  lemma Splice(s: string, d1: string, m: string, c1: string, e: string, d2: string, c2: string)
    ensures s + (d1 + m + c1 + e + s + d2) + m + c2 + e == (s + d1 + m + c1 + e) + (s + d2 + m + c2 + e)
  {
  }

  /** Example text is not sanitised: a description that embeds a newline and
      the line syntax renders exactly as two separate examples would. */
  lemma ExampleNewlineInjection(d1: string, c1: string, d2: string, c2: string)
    ensures
      var forged: Example := map["description" := d1 + LineMiddle + c1 + LineEnd + LineStart + d2, "category" := c2];
      var first: Example := map["description" := d1, "category" := c1];
      var second: Example := map["description" := d2, "category" := c2];
      ExampleLines([forged]) == ExampleLines([first, second])
  {
    var forged: Example := map["description" := d1 + LineMiddle + c1 + LineEnd + LineStart + d2, "category" := c2];
    var first: Example := map["description" := d1, "category" := c1];
    var second: Example := map["description" := d2, "category" := c2];
    ExampleLinesOfTwo(first, second);
    assert ExampleLines([forged]) == ExampleLine(forged) + ExampleLines([]);
    Splice(LineStart, d1, LineMiddle, c1, LineEnd, d2, c2);
  }

  // ---- the reply ----

  /** What came back over HTTP: a parsed JSON object whose "response" field is
      a string or missing; a JSON body that is not an object, or whose
      "response" is not a string (null, a number, a list); or a `requests`
      exception (connection error, timeout, error status, undecodable body). */
  datatype Reply = Body(response: Option<string>) | MalformedBody | RequestError

  /** The exception `classify_ticket` lets escape: `.get` on a non-object or
      `.strip` on a non-string raises `AttributeError`, which the handler for
      `requests` exceptions does not catch. */
  datatype Raised = AttributeError

  /** `classify_ticket`: the stripped "response" field; "Unclassified" when the
      field is missing or the request failed; an escaping `AttributeError` for
      a malformed body. */
  function Classify(call: Call, reply: Reply): (category: Result<string, Raised>)
    ensures category.Err? <==> reply.MalformedBody?
    ensures category.Ok? ==> NoEdgeSpace(category.value)
    ensures reply.RequestError? ==> category == Ok(Sentinel)
    ensures reply == Body(None) ==> category == Ok(Sentinel)
    ensures reply.Body? && reply.response.Some? ==> category == Ok(Strip(reply.response.value))
  {
    match reply
    case RequestError => Ok(Sentinel)
    case MalformedBody => Err(AttributeError)
    case Body(None) => Ok(Sentinel)
    case Body(Some(text)) => Ok(Strip(text))
  }

  /** A successful reply yields the model's text with only surrounding
      whitespace removed. */
  lemma ClassifyKeepsReplyText(call: Call, text: string) returns (i: nat, j: nat)
    ensures i <= j <= |text|
    ensures Classify(call, Body(Some(text))) == Ok(text[i..j])
    ensures AllSpace(text[..i]) && AllSpace(text[j..])
  {
    i, j := StripDecomposition(text);
  }
}
