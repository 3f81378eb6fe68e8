/**
  Turning an OpenRouter chat-completion reply into the extracted JSON value:
  `extractPricingFromPdf` (extract-pricing-data.js) and
  `extractDataWithOpenRouter` (extract-pdf-data.js) after the HTTP request.
  JSON.parse, and `response.json()` which is JSON.parse of the body text, are
  the parameter `parse`: an error carries the SyntaxError's message.
 */
module Replies {
  import opened Results
  import opened JsValues
  import Fences

  /** What the scripts read of the HTTP response. */
  datatype Response = Response(ok: bool, status: nat, body: string)

  /** JSON.parse: a value, or the message of the SyntaxError it throws. */
  type Parser = string -> Result<Json, string>

  /** Why an extraction throws. */
  datatype Failure =
    | HttpError(status: nat, body: string)  // "OpenRouter API error: <status> - <body>"
    | InvalidJson(message: string)          // a SyntaxError, possibly wrapped
    | TypeError                             // a property read on undefined or null, or `.match` on a non-string
    | NoContent                             // "No content in OpenRouter response"

  /** The prefix the daily script puts before a SyntaxError of the reply content. */
  const ParseFailurePrefix := "Failed to parse JSON from OpenRouter response: "

  /** The reply of a chat completion whose first choice carries `content`. */
  function Reply(content: Json): Json {
    JObject(map["choices" := JArray([JObject(map["message" := JObject(map["content" := content])])])])
  }

  /** The parsed body holds `content` at `choices[0].message.content`. */
  predicate ContentAt(result: Json, content: Json) {
    && result.JObject? && "choices" in result.fields
    && var first := GetIndex(Defined(result.fields["choices"]), 0);
       && first.Some? && first.value.Defined? && first.value.value.JObject?
       && "message" in first.value.value.fields
       && var message := first.value.value.fields["message"];
          message.JObject? && "content" in message.fields && message.fields["content"] == content
  }

  /** `result.choices?.[0]?.message?.content`; None when the first read throws,
      which happens only when the parsed body is null. A value is found
      exactly where the body holds one at `choices[0].message.content`. */
  function ReplyContent(result: Json): (r: Option<Prop>)
    ensures r.None? <==> result == JNull
    ensures r.Some? && r.value.Defined? ==> ContentAt(result, r.value.value)
    ensures forall c :: ContentAt(result, c) ==> r == Some(Defined(c))
  {
    match GetProperty(Defined(result), "choices")
    case None => None
    case Some(choices) =>
      Some(OptionalProperty(OptionalProperty(OptionalIndex(choices, 0), "message"), "content"))
  }

  /** The reply shape the scripts expect yields its content. */
  lemma ReplyContentOfReply(content: Json)
    ensures ReplyContent(Reply(content)) == Some(Defined(content))
  {
    var first := JObject(map["message" := JObject(map["content" := content])]);
    assert GetProperty(Defined(Reply(content)), "choices") == Some(Defined(JArray([first])));
    assert OptionalIndex(Defined(JArray([first])), 0) == Defined(first);
  }

  /** JSON.parse of the text selected from a string content; a SyntaxError
      is reported with `prefix` before the parser's message. */
  function ContentParse(parse: Parser, content: string, prefix: string): (r: Result<Json, Failure>)
    ensures parse(Fences.SelectJsonText(content)).Ok? <==> r.Ok?
    ensures r.Ok? ==> r.value == parse(Fences.SelectJsonText(content)).value
    ensures r.Err? ==> r.error == InvalidJson(prefix + parse(Fences.SelectJsonText(content)).error)
  {
    match parse(Fences.SelectJsonText(content))
    case Ok(v) => Ok(v)
    case Err(m) => Err(InvalidJson(prefix + m))
  }

  /** The extracted value of `extractPricingFromPdf`: an HTTP failure, an
      unparsable body, a missing or falsy content and an unparsable content
      string throw; a string content is parsed after the fenced block is
      selected; any other content is the value itself. */
  function ExtractPricing(resp: Response, parse: Parser): (r: Result<Json, Failure>)
    ensures !resp.ok ==> r == Err(HttpError(resp.status, resp.body))
    ensures r.Ok? ==>
      && resp.ok && parse(resp.body).Ok?
      && var c := ReplyContent(parse(resp.body).value);
         && c.Some? && c.value.Defined? && !IsFalsy(c.value)
         && (if c.value.value.JString?
             then parse(Fences.SelectJsonText(c.value.value.s)) == Ok(r.value)
             else r.value == c.value.value)
    ensures r == Err(NoContent) <==>
      && resp.ok && parse(resp.body).Ok?
      && var c := ReplyContent(parse(resp.body).value);
         c.Some? && IsFalsy(c.value)
    ensures resp.ok && parse(resp.body).Err? ==> r == Err(InvalidJson(parse(resp.body).error))
    ensures resp.ok && parse(resp.body).Ok? && ReplyContent(parse(resp.body).value).None? ==> r == Err(TypeError)
    ensures resp.ok && parse(resp.body).Ok? ==>
      var c := ReplyContent(parse(resp.body).value);
      c.Some? && !IsFalsy(c.value) ==>
        r == if c.value.value.JString?
             then ContentParse(parse, c.value.value.s, "")
             else Ok(c.value.value)
  {
    if !resp.ok then Err(HttpError(resp.status, resp.body))
    else
      match parse(resp.body)
      case Err(m) => Err(InvalidJson(m))
      case Ok(result) =>
        match ReplyContent(result)
        case None => Err(TypeError)
        case Some(content) =>
          if IsFalsy(content) then Err(NoContent)
          else if content.value.JString? then
            match parse(Fences.SelectJsonText(content.value.s))
            case Err(m) => assert "" + m == m; Err(InvalidJson(m))
            case Ok(v) => Ok(v)
          else Ok(content.value)
  }

  /** The extracted value of `extractDataWithOpenRouter`: the HTTP status is
      not checked; an unparsable body, a missing or falsy content and a
      content that is not a string throw; a SyntaxError of the content is
      rethrown with a prefix. */
  function ExtractDaily(resp: Response, parse: Parser): (r: Result<Json, Failure>)
    ensures r.Ok? ==>
      && parse(resp.body).Ok?
      && var c := ReplyContent(parse(resp.body).value);
         && c.Some? && c.value.Defined? && c.value.value.JString? && c.value.value.s != ""
         && parse(Fences.SelectJsonText(c.value.value.s)) == Ok(r.value)
    ensures !r.Err? || !r.error.HttpError?
    ensures parse(resp.body).Err? ==> r == Err(InvalidJson(parse(resp.body).error))
    ensures parse(resp.body).Ok? && ReplyContent(parse(resp.body).value).None? ==> r == Err(TypeError)
    ensures parse(resp.body).Ok? ==>
      var c := ReplyContent(parse(resp.body).value);
      c.Some? ==>
        && (IsFalsy(c.value) ==> r == Err(NoContent))
        && (!IsFalsy(c.value) && !c.value.value.JString? ==> r == Err(TypeError))
        && (!IsFalsy(c.value) && c.value.value.JString? ==> r == ContentParse(parse, c.value.value.s, ParseFailurePrefix))
  {
    match parse(resp.body)
    case Err(m) => Err(InvalidJson(m))
    case Ok(result) =>
      match ReplyContent(result)
      case None => Err(TypeError)
      case Some(content) =>
        if IsFalsy(content) then Err(NoContent)
        else if !content.value.JString? then Err(TypeError)
        else
          match parse(Fences.SelectJsonText(content.value.s))
          case Err(m) => Err(InvalidJson(ParseFailurePrefix + m))
          case Ok(v) => Ok(v)
  }

  /** On a successful HTTP response the two extractors agree whenever the
      daily one yields a value; they differ only where the content is not a
      string (the pricing script takes it as it is, the daily one throws) and
      in the wording of a content SyntaxError. */
  lemma ExtractorsAgree(resp: Response, parse: Parser)
    requires resp.ok
    ensures ExtractDaily(resp, parse).Ok? ==> ExtractPricing(resp, parse) == ExtractDaily(resp, parse)
    ensures ExtractPricing(resp, parse).Err? && !ExtractPricing(resp, parse).error.InvalidJson?
            ==> ExtractDaily(resp, parse) == ExtractPricing(resp, parse)
  {
  }

  /** Content that is already structured (an object, an array, a non-zero
      number or `true`) is the pricing script's value as it is, and makes the
      daily script throw. */
  lemma StructuredContent(resp: Response, parse: Parser, content: Json)
    requires resp.ok && parse(resp.body) == Ok(Reply(content))
    requires !content.JString? && !IsFalsy(Defined(content))
    ensures ExtractPricing(resp, parse) == Ok(content)
    ensures ExtractDaily(resp, parse) == Err(TypeError)
  {
    ReplyContentOfReply(content);
  }

  /** A reply whose content wraps the JSON in a Markdown fence, with or
      without a `json` tag, yields the parse of the fenced text with its
      surrounding white space removed, for both scripts. */
  lemma FencedReplyIsParsed(resp: Response, parse: Parser, pre: string, tag: string, body: string, post: string)
    requires resp.ok
    requires parse(resp.body) == Ok(Reply(JString(pre + "```" + tag + body + "```" + post)))
    requires forall j :: 0 <= j < |pre| ==> pre[j] != '`'
    requires forall j :: 0 <= j < |body| ==> body[j] != '`'
    requires tag == "json" || (tag == "" && !Fences.HasJsonTag(body, 0))
    requires parse(Fences.Trim(body)).Ok?
    ensures ExtractPricing(resp, parse) == Ok(parse(Fences.Trim(body)).value)
    ensures ExtractDaily(resp, parse) == Ok(parse(Fences.Trim(body)).value)
  {
    var content := pre + "```" + tag + body + "```" + post;
    ReplyContentOfReply(JString(content));
    Fences.SelectFromFencedBlock(pre, tag, body, post);
    assert content != "" by { assert content[|pre|] == '`'; }
  }
}
