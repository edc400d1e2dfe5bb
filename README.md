# TORQUE chat terminal — a Dafny model

This project models the chat widget of the TORQUE storefront. A visitor types into a terminal-style
chat. The session logs the visitor's message and asks the completion service (`GeminiService`) for
an answer about the product catalog. The answer is logged as the assistant's message. When the
assistant's text mentions a product as `[PRODUCT:<id>]`, that marker is shown as the product's card.

The model has these modules:

- `Types` holds the records of `types.ts`: `Product`, `MessageRole` and `ChatMessage`. Prices are
  whole cents.
- `Text` holds the JavaScript string behaviour the widget relies on: `trim`, `join('\n')`, and how
  a price prints inside a template string. The widget never splits on line breaks. `SplitLines`
  (JavaScript's `split('\n')`) is there only to state that the catalog context comes apart into its
  lines again.
- `Constants` holds the eight-product catalog `PRODUCTS` and the mascot's frame counter
  (`constants.tsx`).
- `Markers` holds the split `text.split(/(\[PRODUCT:[^\]]+\])/)`. The pattern is matched
  leftmost-first, and the greedy `[^\]]+` stops at the first `]`.
- `Render` holds `renderMessageText`: the per-part `match`, the first capture group and the
  `PRODUCTS.find` lookup.
- `Gemini` holds `GeminiService`: the key check in its constructor, the catalog context, the
  transcript and the three fallback notices. The hosted model is a parameter
  `endpoint: Request -> Outcome`, where `Outcome` is either a response whose text may be missing or a
  failure.
- `Chat` holds the session state of `ChatInterface` as the class `ChatSession`. It covers the
  welcome effect, the send guard and `handleSend`. `handleSend` suspends at its `await`. It is
  modelled as `BeginSend` (up to the call) and `CompleteSend` (after it), so the state while a reply
  is pending is visible. `HandleSend` composes the two halves with the call between them.

The session keeps an invariant, `ChatSession.Valid`. After the optional welcome, user and assistant
messages alternate, starting with the user. A reply is pending exactly when the last message is
the user's. Every state-changing method preserves it.

A message that is exactly one marker renders as the card between two empty spans, because `split`
yields an empty string on each side. `Render.RenderCatalogMarker` states this.

## Model

| member | source | states |
|---|---|---|
| Text.Trim | services/geminiService.ts:12 | `trim()` cuts only white space, from both ends: the result is a slice of the text with nothing but white space before and after it; it is empty exactly when every character is JavaScript white space, and otherwise it neither starts nor ends with white space |
| Text.JoinLines | services/geminiService.ts:31 | `join('\n')` of no lines is the empty text, and the result is at least as long as its first line |
| Text.JoinLinesSeparators | services/geminiService.ts:29-31 | `join('\n')` of n lines puts exactly n - 1 line breaks between them |
| Text.SplitJoinLines | services/geminiService.ts:29-31 | splitting the joined text on line breaks gives back the lines, when no line holds a break |
| Text.NatTextValue | services/geminiService.ts:30 | the digits printed for a whole number read back as that number |
| Text.PriceText | services/geminiService.ts:30 | a printed price is never empty and holds no line break and no `]` |
| Text.PriceTextValue | services/geminiService.ts:30 | a printed price reads back as the amount it prints, so no two amounts print alike |
| Text.PriceTextExamples | services/geminiService.ts:30 | 99 prints as `99` and 59.99 as `59.99`: no decimal point for whole amounts |
| Text.PriceTextTrailingZero | services/geminiService.ts:30 | 19.50 prints as `19.5`: no trailing zero after the decimal point |
| Constants.Products | constants.tsx:5-70 | the eight products with their ids, names, descriptions, tags, image URLs and prices (in cents), in display order |
| Constants.CatalogProductsWellFormed | constants.tsx:5-70 | the catalog has eight products, and each has an id that a marker can carry (non-empty, no `]`) and at least one tag |
| Constants.CatalogIdsListed | constants.tsx:7-63 | the catalog's ids in display order |
| Constants.IdsUsable | constants.tsx:7-63 | every catalog id is non-empty and free of `]` |
| Constants.CatalogIdsDistinct | constants.tsx:7-63 | no two catalog products share an id |
| Constants.NextFrame | constants.tsx:93 | the next frame is always one of the six frames; it is the following frame, except that the last one wraps to the first |
| Constants.FrameAfter | constants.tsx:91-96 | the frame shown after a number of ticks is always one of the six frames |
| Constants.FrameAfterCycles | constants.tsx:91-96 | after any number of ticks the mascot shows frame `ticks mod 6` |
| Markers.MarkerOfId | components/ChatInterface.tsx:66 | every non-empty id without `]` has a marker, and the marker's capture group gives the id back |
| Markers.IdOfMarker | components/ChatInterface.tsx:69-71 | every marker carries a non-empty id without `]` and is the marker of that id |
| Markers.CloseFrom | components/ChatInterface.tsx:66 | `[^\]]+` runs to the first `]` after its start, or to the end of the text when there is none |
| Markers.MatchAt | components/ChatInterface.tsx:66 | when the pattern matches at a position, the matched text is exactly one marker |
| Markers.MatchAtComplete | components/ChatInterface.tsx:66 | whenever a marker starts at a position, the pattern matches there, and it matches exactly that marker |
| Markers.FindFrom | components/ChatInterface.tsx:66 | a match found lies inside the text at or after the start position, and it is a match of the pattern there |
| Markers.FindFromLeftmost | components/ChatInterface.tsx:66 | the match found is the leftmost one; when none is found, the pattern matches nowhere |
| Markers.FindFromNone | components/ChatInterface.tsx:66 | when the pattern matches nowhere, nothing is found |
| Markers.Split | components/ChatInterface.tsx:66 | the split always yields an odd number of parts |
| Markers.SplitLossless | components/ChatInterface.tsx:66 | the parts concatenate back to the text |
| Markers.SplitAlternates | components/ChatInterface.tsx:66 | parts at even positions contain no marker anywhere, and parts at odd positions are single markers |
| Markers.SplitWithoutOpen | components/ChatInterface.tsx:66 | text without `[PRODUCT:` comes back as the single part itself |
| Markers.SplitMarker | components/ChatInterface.tsx:66 | a text that is exactly one marker splits into the empty text, the marker, and the empty text |
| Markers.EmptyIdIsNoMarker | components/ChatInterface.tsx:66 | `[PRODUCT:]` is no marker and stays in the text, since the id needs at least one character |
| Markers.StrayOpenSwallowsMarker | components/ChatInterface.tsx:66 | an unclosed `[PRODUCT:` before a marker swallows it: the leftmost match runs from the stray opening to the first `]` |
| Markers.NoBracketPNoOpen | components/ChatInterface.tsx:66 | a text in which no `[` is followed by `P` holds no `[PRODUCT:` |
| Render.Find | components/ChatInterface.tsx:72 | `find` returns the first catalog product with the requested id (no earlier product has it), and it returns nothing exactly when no product has that id |
| Render.FindById | components/ChatInterface.tsx:72 | in a catalog with distinct ids, looking up a product's id finds that very product |
| Render.MatchId | components/ChatInterface.tsx:69-71 | `match` fails exactly when the part contains no marker; otherwise group 1 is a non-empty id without `]` |
| Render.MatchIdOfMarker | components/ChatInterface.tsx:69-71 | on a part that is one marker, `match` yields that marker's id |
| Render.RenderPart | components/ChatInterface.tsx:69-81 | when `match` finds an id that names a catalog product, the part becomes the card of the first product with that id; when the id names no product, or the part has no marker, it becomes a span of its own text; a card always holds a catalog product whose id is the part's `match` |
| Render.RenderText | components/ChatInterface.tsx:65-83 | rendering gives one segment per part of the split |
| Render.RenderedSegment | components/ChatInterface.tsx:68-81 | each plain part is shown verbatim as a span; a marker becomes the card of the product its id names, or stays a span holding the marker when no product has that id |
| Render.SegmentStandsForPart | components/ChatInterface.tsx:68-81 | each segment stands for exactly the part it was made from: a span for its text, a card for its product's marker |
| Render.RenderLossless | components/ChatInterface.tsx:65-83 | for any catalog, the texts the segments stand for concatenate back to the message text |
| Render.RenderCatalogMarker | components/ChatInterface.tsx:65-83 | a message that is exactly a catalog product's marker renders as that product's card between two empty spans |
| Render.RenderWithoutOpen | components/ChatInterface.tsx:81 | text without `[PRODUCT:` renders as one span holding the whole text |
| Render.RenderStorefrontMarker | components/ChatInterface.tsx:72 | the marker of any of the storefront's eight products renders as that product's card |
| Gemini.UsableKey | services/geminiService.ts:12 | a key passes the check exactly when it is present, is not the text `undefined`, and is not all white space |
| Gemini.ProductLine | services/geminiService.ts:30 | the line `- {name} (ID: {id}): {description}. Price: ${price}` of one product; it starts with `- `, and it holds no line break when the product's name, id and description hold none |
| Gemini.ProductLines | services/geminiService.ts:29-30 | one catalog line per product |
| Gemini.CatalogContext | services/geminiService.ts:29-31 | the product lines joined by line breaks; empty exactly when the catalog is |
| Gemini.CatalogContextLines | services/geminiService.ts:29-31 | the catalog context has one line per product, in catalog order, each that product's line; an empty catalog gives the empty text; n products give n - 1 line breaks |
| Gemini.StorefrontOneLine | constants.tsx:5-70 | no name, id or description of the storefront's products holds a line break |
| Gemini.StorefrontCatalogContext | services/geminiService.ts:29-31 | the catalog context the widget sends has exactly one line per storefront product, in catalog order, separated by seven line breaks |
| Gemini.ModelRole | services/geminiService.ts:62 | a history role becomes `user` exactly when it is `user`, and `model` otherwise |
| Gemini.Transcript | services/geminiService.ts:61-64 | the transcript has one turn per history entry and then the new message as its last, user, turn |
| Gemini.TranscriptShape | services/geminiService.ts:61-64 | the transcript keeps the history in order with its texts; a turn is a user turn exactly when its history role is `user`, and every other role becomes `model`; the new message comes last as a user turn |
| Gemini.ReplyFor | services/geminiService.ts:71-75 | a failed call gives the critical-failure notice; a response with non-empty text gives that text; a response with missing or empty text gives the signal-lost notice; the reply is never empty |
| Gemini.GeminiService.constructor | services/geminiService.ts:8-21 | a client exists exactly when the key is present, is not the text `undefined`, is not blank after trimming, and the SDK accepted it |
| Gemini.GeminiService.GetChatResponse | services/geminiService.ts:23-76 | without a client: the missing-link notice, and no call; with one: exactly one request holding the catalog context and the transcript; the reply is that outcome's text or one of the three notices, and it is never empty |
| Chat.WelcomeText | components/ChatInterface.tsx:24 | the welcome text, character for character |
| Chat.WelcomeHasNoBracketP | components/ChatInterface.tsx:24 | in the welcome text, no `[` is followed by `P` |
| Chat.WelcomeRendersAsText | components/ChatInterface.tsx:24 | the welcome text mentions `[TORQUE_UNIT]` but holds no product marker, so it splits into itself alone and renders as one span |
| Chat.History | components/ChatInterface.tsx:51 | the history has one entry per logged message |
| Chat.SessionTranscript | components/ChatInterface.tsx:51-52 | the transcript sent for the session keeps every logged message's text in order; a turn is a user turn exactly when the visitor wrote it; the new input comes last |
| Chat.PendingIffLastFromUser | components/ChatInterface.tsx:47-62 | in a valid session, a reply is pending exactly when the last logged message is the user's |
| Chat.ConversationAfterUser | components/ChatInterface.tsx:47-49 | logging a user message when no reply is pending keeps the alternation, and it leaves a reply pending |
| Chat.ConversationAfterReply | components/ChatInterface.tsx:61-62 | logging the reply while one is pending keeps the alternation, and it clears the pending state |
| Chat.ChatSession.constructor | components/ChatInterface.tsx:14-16 | the session starts with an empty log, an empty input and no reply pending, and it uses the storefront catalog |
| Chat.ChatSession.ShowWelcome | components/ChatInterface.tsx:19-29 | the welcome message is logged as the assistant's only when the log is empty; otherwise nothing changes |
| Chat.ChatSession.SetInput | components/ChatInterface.tsx:173 | typing replaces the input and leaves the log and the pending state alone |
| Chat.ChatSession.CanSend | components/ChatInterface.tsx:38 | a send may proceed exactly when the input is not all white space and no reply is pending; the same test disables the send button (line 182) |
| Chat.ChatSession.BeginSend | components/ChatInterface.tsx:37-51 | a send proceeds exactly when the input is not blank and no reply is pending; it then logs the raw input as the user's, clears the input, marks a reply pending, and hands over the input and the history from before the new message; otherwise nothing changes |
| Chat.ChatSession.CompleteSend | components/ChatInterface.tsx:54-62 | the reply is logged as the assistant's and the pending mark is cleared; text typed meanwhile stays in the input |
| Chat.ChatSession.HandleSend | components/ChatInterface.tsx:37-63 | a send that passes the guard adds exactly the user's message and then the service's answer for the earlier history, whatever the call's outcome; earlier messages stay as they were; a blocked send changes nothing |

## Left out

- Message ids and timestamps (`Date.now()`) are not modelled; `ChatMessage` keeps only the role and the text.
- The scroll effect (components/ChatInterface.tsx:31-35) and all rendering markup are not modelled. This covers the card component, its click handler, React keys, the header, the mascot image and the logo.
- The hosted model is not modelled. It becomes the `endpoint` parameter, and each call gets one fixed outcome.
- The SDK constructor is not modelled. Whether it throws becomes the `sdkAccepts` parameter.
- `process.env.API_KEY` is not read; the key is the constructor's `apiKey` parameter.
- The persona text of the system instruction, the model name and the temperature are left out (services/geminiService.ts:33-56, 60, 67). `Request` carries only the catalog context that the instruction embeds, plus the transcript.
- Console warnings and errors are left out.
- The mascot's 120 ms interval timer and the frame image URLs are left out; only the frame step is modelled.
- React's scheduling of state updates is not modelled. Each method applies its updates at once. The source appends with functional updates, so only the order of calls matters, and `BeginSend` and `CompleteSend` let calls interleave.
- Text.PriceText: covers amounts with at most two decimals and at most 15 significant digits (below 10^13 dollars), held as whole cents, which is every price in the catalog. JavaScript prints larger amounts with rounded digits (the nearest double in its shortest round-trip form), and amounts from 10^21 dollars on in exponent form (`1e+21`); the model does not.
- Text.Trim: works on Unicode code points. It does not model UTF-16 surrogate pairs, which never count as white space anyway.
- The default `history = []` of `getChatResponse` is not modelled; the widget always passes a history.
