/** The handling of the vision service's answer in `analyzeSnagPhoto`: the
    first text block of the reply is searched for a `{ ... }` span, the span is
    handed to `JSON.parse`, and any failure after the request has returned
    gives a fixed sentinel assessment. The request itself and `JSON.parse` are
    outside the model: the reply and the parser are parameters. */
module Claude {
  import opened Common

  /** The six fields the service is asked for; `confidence` is an opaque
      stored number. */
  datatype Analysis = Analysis(
    defectType: string,
    description: string,
    severity: string,
    suggestedTrade: string,
    remedialAction: string,
    confidence: real)

  /** Returned whenever the reply cannot be turned into an assessment. */
  const SENTINEL: Analysis := Analysis(
    "Unidentified defect",
    "Unable to analyze this image. Please review manually.",
    "MINOR",
    "Builder",
    "Manual inspection required",
    0.0)

  /** The outcome of `anthropic.messages.create`: the request rejected, or a
      reply whose first content block has this text (`None` when there is no
      first block or it carries no text). */
  datatype ApiReply = RequestFailed | Replied(firstText: Option<string>)

  /** `JSON.parse` of a span, `None` when it throws. */
  type Parser = string -> Option<Analysis>

  function FirstIndexOf(s: string, c: char): (r: Option<nat>)
    ensures r.Some? ==> r.value < |s| && s[r.value] == c
    ensures r.Some? ==> forall k :: 0 <= k < r.value ==> s[k] != c
    ensures r.None? ==> c !in s
    decreases |s|
  {
    if s == [] then None
    else if s[0] == c then Some(0)
    else match FirstIndexOf(s[1..], c)
      case None => None
      case Some(i) => Some(i + 1)
  }

  function LastIndexOf(s: string, c: char): (r: Option<nat>)
    ensures r.Some? ==> r.value < |s| && s[r.value] == c
    ensures r.Some? ==> forall k :: r.value < k < |s| ==> s[k] != c
    ensures r.None? ==> c !in s
    decreases |s|
  {
    if s == [] then None
    else if s[|s| - 1] == c then Some(|s| - 1)
    else LastIndexOf(s[..|s| - 1], c)
  }

  /** Where `text.match(/\{[\s\S]*\}/)` matches: the leftmost `{` that has a
      `}` after it, extended greedily to the last `}`. */
  function SpanBounds(text: string): (b: Option<(nat, nat)>)
    ensures b.Some? ==> b.value.0 < b.value.1 < |text|
    ensures b.Some? ==> text[b.value.0] == '{' && text[b.value.1] == '}'
    ensures b.Some? ==> forall k :: 0 <= k < b.value.0 ==> text[k] != '{'
    ensures b.Some? ==> forall k :: b.value.1 < k < |text| ==> text[k] != '}'
  {
    match (FirstIndexOf(text, '{'), LastIndexOf(text, '}'))
    case (Some(i), Some(j)) => if i < j then Some((i, j)) else None
    case _ => None
  }

  /** The matched span exists exactly when some `{` comes before some `}`. */
  lemma SpanExistsIff(text: string)
    ensures SpanBounds(text).Some? <==>
            exists i, j :: 0 <= i < j < |text| && text[i] == '{' && text[j] == '}'
  {
    if exists i, j :: 0 <= i < j < |text| && text[i] == '{' && text[j] == '}' {
      var i, j :| 0 <= i < j < |text| && text[i] == '{' && text[j] == '}';
      assert '{' in text && '}' in text;
      var f, l := FirstIndexOf(text, '{').value, LastIndexOf(text, '}').value;
      assert f <= i && j <= l;
    }
  }

  /** The matched text: from that `{` through the last `}`. */
  function JsonSpan(text: string): (span: Option<string>)
    ensures span.None? <==> SpanBounds(text).None?
    ensures span.Some? ==> 2 <= |span.value| <= |text| && span.value[0] == '{' && span.value[|span.value| - 1] == '}'
  {
    match SpanBounds(text)
    case None => None
    case Some((i, j)) => Some(text[i..j + 1])
  }

  /** The `try` block of `analyzeSnagPhoto`: the parsed span, or the sentinel
      when there is no text, no span, or the parse throws. */
  function ReadReply(firstText: Option<string>, parse: Parser): (a: Analysis)
    ensures firstText.None? ==> a == SENTINEL
    ensures a != SENTINEL ==>
      firstText.Some? && JsonSpan(firstText.value).Some? && parse(JsonSpan(firstText.value).value) == Some(a)
  {
    if firstText.None? then SENTINEL
    else match JsonSpan(firstText.value)
      case None => SENTINEL
      case Some(span) => match parse(span)
        case None => SENTINEL
        case Some(a) => a
  }

  /** `analyzeSnagPhoto`: `None` is a rejected promise, which happens exactly
      when the request itself fails; the catch block covers only what follows
      the request. */
  function AnalyzeSnagPhoto(reply: ApiReply, parse: Parser): (r: Option<Analysis>)
    ensures r.None? <==> reply.RequestFailed?
    ensures reply.Replied? ==> r.value == ReadReply(reply.firstText, parse)
  {
    if reply.RequestFailed? then None else Some(ReadReply(reply.firstText, parse))
  }

  /** A successful parse of the span is returned as it is. */
  lemma ParsedSpanReturned(text: string, parse: Parser)
    requires JsonSpan(text).Some? && parse(JsonSpan(text).value).Some?
    ensures AnalyzeSnagPhoto(Replied(Some(text)), parse) == parse(JsonSpan(text).value)
  {
  }

  /** Every answered request whose text has no span, or whose span does not
      parse, or that has no text, gives the same sentinel, whatever the reply
      and the parser. */
  lemma SentinelOnUnreadableReply(reply: ApiReply, parse: Parser)
    requires reply.Replied?
    requires reply.firstText.None?
          || JsonSpan(reply.firstText.value).None?
          || parse(JsonSpan(reply.firstText.value).value).None?
    ensures AnalyzeSnagPhoto(reply, parse) == Some(SENTINEL)
  {
  }

  /** The parser only ever sees a span that opens with `{` and closes with `}`. */
  lemma ParserSeesBracedSpan(text: string)
    requires JsonSpan(text).Some?
    ensures var span := JsonSpan(text).value;
            |span| >= 2 && span[0] == '{' && span[|span| - 1] == '}'
  {
  }
}
