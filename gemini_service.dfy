/** The completion service (services/geminiService.ts): it holds a client only when a usable API key
    was configured, builds the catalog context and the transcript for the hosted model, and turns
    every way the call can end into display text. The hosted model itself is the parameter
    `endpoint`, a function from the request sent to how the call ended. */
module Gemini {
  import opened Types
  import opened Text
  import Constants

  const SecureLinkMissing: string :=
    "ERROR: SECURE_LINK_MISSING. API key not configured. Ensure environment variables are active to engage [TORQUE_UNIT]."
  const SignalLost: string := "SIGNAL_LOST. RE_ESTABLISHING_LEVERAGE."
  const CriticalFailure: string := "CRITICAL_FAILURE: NOISE_THRESHOLD_EXCEEDED. ABORT."

  /** The notices the service answers with instead of a model reply. */
  predicate IsNotice(s: string) {
    s == SecureLinkMissing || s == SignalLost || s == CriticalFailure
  }

  /** One earlier message as the caller hands it over: a role name and the text. */
  datatype HistoryEntry = HistoryEntry(role: string, text: string)

  /** One turn of the transcript sent to the model; its role is "user" or "model". */
  datatype Content = Content(role: string, text: string)

  /** What is sent to the model: the catalog context (which the fixed instruction text embeds) and the
      transcript. */
  datatype Request = Request(catalogContext: string, contents: seq<Content>)

  /** How the call ended: a response whose text may be missing, or a failure of any kind. */
  datatype Outcome = Ok(text: Option<string>) | Fail

  /** The reply of one call, and the request sent to the model, if one was sent. */
  datatype Exchange = Exchange(reply: string, call: Option<Request>)

  /** The key passes the constructor's check: present, not the text "undefined", not blank. */
  predicate UsableKey(apiKey: Option<string>)
    ensures UsableKey(apiKey) <==> apiKey.Some? && apiKey.value != "undefined" && !AllSpace(apiKey.value)
  {
    apiKey.Some? && apiKey.value != "" && apiKey.value != "undefined" && Trim(apiKey.value) != ""
  }

  /** The catalog line of one product. */
  function ProductLine(p: Product): (line: string)
    ensures |line| > 2 && line[..2] == "- "
    ensures OneLine(p) ==> '\n' !in line
  {
    "- " + p.name + " (ID: " + p.id + "): " + p.description + ". Price: $" + PriceText(p.price)
  }

  function ProductLines(products: seq<Product>): (lines: seq<string>)
    ensures |lines| == |products|
  {
    seq(|products|, k requires 0 <= k < |products| => ProductLine(products[k]))
  }

  /** The catalog part of the system instruction: one line per product, in catalog order. */
  function CatalogContext(products: seq<Product>): (context: string)
    ensures context == "" <==> products == []
  {
    var lines := ProductLines(products);
    assert products != [] ==> lines[0] == ProductLine(products[0]);
    JoinLines(lines)
  }

  /** The product fields that end up in its catalog line hold no line break. */
  predicate OneLine(p: Product) {
    '\n' !in p.name && '\n' !in p.id && '\n' !in p.description
  }

  /** The catalog context has one line per product, in order, each the product's line; an empty
      catalog gives the empty text, and n products are separated by n - 1 line breaks. */
  lemma CatalogContextLines(products: seq<Product>)
    requires forall k :: 0 <= k < |products| ==> OneLine(products[k])
    ensures products == [] ==> CatalogContext(products) == ""
    ensures products != [] ==> SplitLines(CatalogContext(products)) == ProductLines(products)
    ensures products != [] ==> multiset(CatalogContext(products))['\n'] == |products| - 1
  {
    var lines := ProductLines(products);
    assert NoNewline(lines) by {
      forall k | 0 <= k < |lines| ensures '\n' !in lines[k] {
        assert lines[k] == ProductLine(products[k]);
      }
    }
    if products != [] {
      SplitJoinLines(lines);
      JoinLinesSeparators(lines);
    }
  }

  /** No name, id or description of the storefront's catalog holds a line break. */
  lemma StorefrontOneLine()
    ensures forall k :: 0 <= k < |Constants.Products| ==> OneLine(Constants.Products[k])
  {
    Constants.ForgeEngineOneLine();
    Constants.LeverageSdkOneLine();
    Constants.EngineSdkOneLine();
    Constants.BikerJacketOneLine();
    Constants.CapOneLine();
    Constants.BotFigurineOneLine();
    Constants.RustFrameOneLine();
    Constants.ArcCapacitorOneLine();
  }

  /** The catalog context the widget sends has one line per storefront product, in catalog order,
      separated by seven line breaks. */
  lemma StorefrontCatalogContext()
    ensures SplitLines(CatalogContext(Constants.Products)) == ProductLines(Constants.Products)
    ensures multiset(CatalogContext(Constants.Products))['\n'] == 7
  {
    StorefrontOneLine();
    Constants.CatalogIdsListed();
    CatalogContextLines(Constants.Products);
  }

  /** A history role as the model knows it: "user" stays "user", every other role is "model". */
  function ModelRole(role: string): (modelRole: string)
    ensures modelRole == "user" || modelRole == "model"
    ensures modelRole == "user" <==> role == "user"
  {
    if role == "user" then "user" else "model"
  }

  /** The transcript: the history in order, then the new message as a user turn. */
  function Transcript(message: string, history: seq<HistoryEntry>): (contents: seq<Content>)
    ensures |contents| == |history| + 1 && contents[|history|] == Content("user", message)
  {
    seq(|history|, k requires 0 <= k < |history| => Content(ModelRole(history[k].role), history[k].text))
      + [Content("user", message)]
  }

  lemma TranscriptShape(message: string, history: seq<HistoryEntry>)
    ensures |Transcript(message, history)| == |history| + 1
    ensures forall k :: 0 <= k < |history| ==>
      Transcript(message, history)[k].text == history[k].text
      && (Transcript(message, history)[k].role == "user" <==> history[k].role == "user")
      && (Transcript(message, history)[k].role == "user" || Transcript(message, history)[k].role == "model")
    ensures Transcript(message, history)[|history|] == Content("user", message)
  {
  }

  /** The text the service answers with once the model was called. */
  function ReplyFor(outcome: Outcome): (reply: string)
    ensures reply != ""
    ensures outcome.Fail? ==> reply == CriticalFailure
    ensures outcome.Ok? && outcome.text.Some? && outcome.text.value != "" ==> reply == outcome.text.value
    ensures outcome.Ok? && (outcome.text.None? || outcome.text.value == "") ==> reply == SignalLost
  {
    match outcome
    case Fail => CriticalFailure
    case Ok(Some(text)) => if text != "" then text else SignalLost
    case Ok(None) => SignalLost
  }

  class GeminiService {
    /** Whether a client for the hosted model exists (`ai` is not null). */
    var hasClient: bool

    /** Creates the client only for a usable key, and only when the SDK constructor succeeds
        (`sdkAccepts`); a failing SDK constructor leaves the service without a client. */
    constructor(apiKey: Option<string>, sdkAccepts: bool)
      ensures hasClient <==> UsableKey(apiKey) && sdkAccepts
    {
      if !UsableKey(apiKey) {
        hasClient := false;
      } else {
        hasClient := sdkAccepts;
      }
    }

    /** `getChatResponse`: without a client it answers with the missing-link notice and calls nothing;
        otherwise it sends the catalog context and transcript once and maps the outcome to text. */
    function GetChatResponse(message: string, products: seq<Product>, history: seq<HistoryEntry>,
                             endpoint: Request -> Outcome): (r: Exchange)
      reads this
      ensures !hasClient ==> r == Exchange(SecureLinkMissing, None)
      ensures hasClient ==> r.call == Some(Request(CatalogContext(products), Transcript(message, history)))
      ensures r.call.Some? ==> r.reply == ReplyFor(endpoint(r.call.value))
      ensures r.reply != ""
      ensures IsNotice(r.reply) || (r.call.Some? && endpoint(r.call.value) == Ok(Some(r.reply)))
    {
      if !hasClient then Exchange(SecureLinkMissing, None)
      else
        var request := Request(CatalogContext(products), Transcript(message, history));
        Exchange(ReplyFor(endpoint(request)), Some(request))
    }
  }
}
