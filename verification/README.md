# pdga-discord-bot, modelled in Dafny

The model covers the core of a Discord bot that answers `/pdga <number> <directive>`
commands with information from a player's profile on pdga.com:

- `Bot` (from `main.go`): the message handler. It first decides whether a chat message
  is a command for the bot. It then parses the command into a PDGA number and a
  directive, requests the profile, and chooses the reply.
- `Pdga` (from `lib/pdga/pdga.go`):
  - the profile URL;
  - how the HTTP status is classified;
  - how the player's name is cleaned out of the page title;
  - the all-or-nothing `NewPlayer` constructor;
  - the `Info` reply text;
  - the `PredictRating` stub.
- `GoText`: the parts of Go's standard library that these rest on, modelled from the
  documented behaviour of the library. Covered:
  - `unicode.IsSpace`, with the full Unicode White_Space list;
  - the `strings` functions `Fields`, `TrimSpace`, `HasPrefix`, `TrimPrefix`, `Index`,
    `Contains` and `ReplaceAll` (with an empty replacement);
  - `strconv.Atoi` with a 64-bit `int`;
  - `%d` formatting;
  - `strings.Split(s, "\n")`, which the bot itself never calls; it is used only to state
    the line structure of the `Info` reply.
- `Wrappers`: `Option` and `Result`.

The network is a parameter. The handler receives the bot's user ID, the message, and a
function `fetch` from URL to HTTP response. It returns an `Effects` value: the URL it
requested, if any, and the reply it sent, if any. The HTML parsing that `goquery` does
is not modelled. A fetched page is given as the four texts the selectors extract: the
`#page-title` text and the `.current-rating`, `.classification` and `.location` texts.

## Behaviour worth noting

- The directive is accepted when it is a substring of `"info predict_rating"`
  (`main.go:124-125`), not when it is one of the two words. So `fo`, `rating` and
  `predict_` pass, while `information` fails (`Bot.AllowedDirective`,
  `Bot.DirectiveFragmentsAccepted`, `Bot.DirectiveExtensionRejected`).
- `predict_rating` passes the parser, and the profile is fetched for it. After a
  successful fetch it gets no reply: the handler answers only `info` (`main.go:104-110`),
  and `PredictRating` is never called (`Bot.HandleNeverSendsPrediction`,
  `Bot.PredictRatingScenario`). A failed fetch is still reported, whatever the directive
  (`main.go:94-101`, `Bot.HandleFetchFailure`, `Bot.NotFoundScenario`).
- The number is the first word and the directive the second (`main.go:119-129`).
- Parse errors and fetch errors are sent back as replies, each behind a fixed lead-in
  (`main.go:86`, `main.go:96`).

## Model

| member | source | states |
|---|---|---|
| GoText.IsSpace | main.go:114 | white space is exactly the Unicode White_Space set: tab through carriage return, space, U+0085, U+00A0, U+1680, U+2000 through U+200A, U+2028, U+2029, U+202F, U+205F and U+3000 |
| GoText.HasPrefix | main.go:76 | a text starts with a prefix when the prefix is no longer than the text and equals the text's first characters |
| GoText.Index | main.go:125 | the result is -1 exactly when the text holds no occurrence; otherwise it is a position where one starts, and no occurrence starts earlier |
| GoText.Contains | main.go:125 | the text holds the piece when some position inside the text starts an occurrence of it |
| GoText.TrimPrefix | main.go:83 | a message that starts with the trigger is the trigger followed by the result; any other message is left as it is |
| GoText.ContainsIffIndex | main.go:125 | the substring test holds exactly when the first-occurrence search finds a position |
| GoText.ContainsInSpaceJoin | main.go:124-125 | for a text without white space, searching two words joined by a space is the same as searching each word |
| GoText.Fields | main.go:114 | every field is non-empty and holds no white space |
| GoText.FieldsKeepNonSpace | main.go:114 | the fields, concatenated, are exactly the non-space characters of the input, in order |
| GoText.FieldsEmptyIffAllSpace | main.go:114-116 | a command has no fields exactly when it is all white space |
| GoText.FieldsOfJoin | main.go:114 | splitting tokens that were joined with single spaces gives back the same tokens |
| GoText.FieldsOfJoinThen | lib/pdga/pdga.go:67 | tokens joined by spaces and followed by a space and any text split into those tokens, then the fields of the text |
| GoText.FieldsOfSpacedPair | main.go:114 | two tokens separated by a space, with or without a space in front, are exactly two fields |
| GoText.TrimSpace | lib/pdga/pdga.go:83 | the result is a slice of the input that leaves out only white space at both ends, and it neither starts nor ends with white space |
| GoText.TrimSpaceCharacterized | lib/pdga/pdga.go:87-90 | any cut that removes only white space and leaves none at either end is the trimmed text |
| GoText.TrimSpaceIdempotent | lib/pdga/pdga.go:83 | trimming twice is the same as trimming once |
| GoText.TrimSpaceIgnoresTrailing | lib/pdga/pdga.go:83 | white space added at the end does not change the trimmed text |
| GoText.RemoveAll | lib/pdga/pdga.go:83 | a text without the marker comes back unchanged; cutting out the marker never lengthens the text, and leaves its length unchanged exactly when the marker is empty or absent |
| GoText.RemoveAllAfterFreePrefix | lib/pdga/pdga.go:81-83 | the scan is leftmost and non-overlapping: when no occurrence starts in the text `a` before a marker, `a` is kept, that marker is cut, and the scan goes on after it |
| GoText.RemoveAllAfterClearPrefix | lib/pdga/pdga.go:81-83 | when the text before the marker never holds the marker's first character, that text is kept and the scan goes on after the marker |
| GoText.Atoi | main.go:119 | an accepted number lies in the signed 64-bit range, and its text is non-empty with no white space |
| GoText.Itoa | lib/pdga/pdga.go:67 | the rendering is non-empty with no white space; it is all digits exactly when the number is not negative; it starts with `0` only for zero, which is written as the single digit `0`, and a negative number is a minus sign followed by a non-zero digit, so there are never leading zeros |
| GoText.DecimalValueOfNat | lib/pdga/pdga.go:67 | the digits written for a natural number denote that number |
| GoText.AtoiOfItoa | main.go:119 | reading back any 64-bit number written in decimal gives the same number |
| GoText.SplitLinesOfJoin | lib/pdga/pdga.go:41-46 | splitting lines that were joined with newlines gives them back, as long as no line contains a newline |
| Pdga.ProfileUrl | lib/pdga/pdga.go:56 | the profile URL is the fixed base followed by exactly the PDGA number |
| Pdga.StatusError | lib/pdga/pdga.go:63-71 | only status 200 lets extraction go ahead; 404 gives "PDGA Number invalid"; every other status gives a message starting with "status code error: " |
| Pdga.NotFoundIsDistinct | lib/pdga/pdga.go:63-71 | the not-found message differs from the message of every other failing status |
| Pdga.StatusErrorNamesCode | lib/pdga/pdga.go:67 | the words of a status error message are "status", "code", "error:", the code, then the words of the status line, and reading the fourth word as a number gives back the code |
| Pdga.CleanName | lib/pdga/pdga.go:81-83 | the cleaned name neither starts nor ends with white space and is never longer than the title |
| Pdga.CleanNameWithoutMarker | lib/pdga/pdga.go:81-83 | a title that does not contain `#<number>` is only trimmed |
| Pdga.CleanNameOfProfileTitle | lib/pdga/pdga.go:81-83 | a title of the form `<name> #<number>`, where the name holds no `#`, gives back the trimmed name |
| Pdga.GrabBasicPdgaInfo | lib/pdga/pdga.go:55-97 | there are fields exactly when the response has status 200 and a readable page; a transport failure is passed on as it is; 404 gives the not-found error; any status other than 200 and 404 gives "status code error: " with the code and the status line; an unreadable 200 page gives its parse error |
| Pdga.NewPlayer | lib/pdga/pdga.go:25-37 | a player exists exactly when the fetch succeeded; it carries the requested number, the cleaned name and the trimmed texts, each in its own field; on failure only the error is returned |
| Pdga.Info | lib/pdga/pdga.go:40-48 | the info text starts with the header and the player's number, closed by a full stop and a newline |
| Pdga.InfoIsJoin | lib/pdga/pdga.go:41-47 | the info text is six lines joined by newlines: five labelled lines and a last line holding one tab |
| Pdga.InfoLines | lib/pdga/pdga.go:40-48 | when no field spans lines, the reply has exactly six lines, with number, name, classification, location and rating each on its own line after its label |
| Pdga.InfoInjective | lib/pdga/pdga.go:40-48 | two players whose fields hold no newlines get the same info text only when they are the same player |
| Pdga.PredictRating | lib/pdga/pdga.go:51-53 | the prediction names the rating 1050 |
| Pdga.PredictRatingIgnoresPlayer | lib/pdga/pdga.go:51-53 | every player gets the same prediction, and the prediction names 1050 |
| Bot.ParseUserCommand | main.go:113-130 | fewer than two fields, a bad number and a bad directive are reported in that order, each exactly when it is the first check to fail; on success the first two fields come back unchanged as number and directive |
| Bot.ValidPdgaNumber | main.go:119-121 | the number check accepts exactly the following: digits with an optional `+` up to 2^63-1, or `-` followed only by zeros |
| Bot.AtoiNonNegativeIff | main.go:119 | `Atoi` reads a non-negative value from exactly those texts |
| Bot.NegativeZeroAccepted | main.go:119-121 | a minus sign in front of zeros passes |
| Bot.PlusSignAccepted | main.go:119-121 | a number written with an explicit plus sign passes |
| Bot.LeadingZeroAccepted | main.go:119-121 | a number written with leading zeros passes |
| Bot.NegativeRejected | main.go:119-121 | every negative number other than zero fails |
| Bot.NonDigitRejected | main.go:119-121 | a non-digit anywhere except a leading sign makes the number fail |
| Bot.NumberCheckExamples | main.go:119-121 | "-0" and "+5" pass; "abc" and "1_000" fail |
| Bot.ValidPdgaNumberOfItoa | main.go:119-121 | of the non-negative numbers written in decimal, exactly those from 0 to 2^63-1 pass |
| Bot.AllowedDirective | main.go:123-127 | a single word passes exactly when it is a piece of `info` or a piece of `predict_rating` |
| Bot.RejectedIfNowhere | main.go:124-127 | a directive that occurs in neither word fails |
| Bot.InfoAccepted | main.go:124-125 | `info` passes |
| Bot.PredictRatingAccepted | main.go:124-125 | `predict_rating` passes |
| Bot.DirectiveFragmentsAccepted | main.go:124-125 | fragments of the directive words, such as `fo` and `rating`, pass |
| Bot.DirectiveExtensionRejected | main.go:124-127 | `information` fails even though it starts like `info` |
| Bot.ParseOfWrittenCommand | main.go:113-130 | a valid number and directive, written with single spaces and followed by any extra words, parse back to the same command |
| Bot.ParseShortCommand | main.go:114-117 | a command of a single word, or of none, fails the count check |
| Bot.ParseReportsFirstFailure | main.go:119-127 | when both the number and the directive are bad, the bad number is what gets reported |
| Bot.ParseSpacedCommand | main.go:113-130 | "number directive", with or without a leading space, parses to exactly that number and directive |
| Bot.Respond | main.go:84-110 | a request is made exactly when parsing succeeded, and it is for that number's profile URL; a parse failure is answered with the usage lead-in and the error; every reply goes to the message's channel |
| Bot.RespondReplyLead | main.go:86-106 | every reply starts with one of three texts: the usage-error lead-in, the profile-error lead-in or the info header |
| Bot.RespondAfterFetch | main.go:94-110 | after a successful fetch, the reply is the player's info when the directive is `info`, and no reply is sent otherwise |
| Bot.HandleMessage | main.go:73-111 | messages from the bot itself, and messages that do not start with the trigger, have no effect at all; replies go to the message's channel; only profile URLs are requested |
| Bot.HandleParsesAfterTrigger | main.go:76-83 | a message that passes the gate is parsed from exactly the text after the trigger |
| Bot.HandleParseFailure | main.go:84-92 | a message that fails to parse makes no request and is answered with the usage lead-in and the parse error |
| Bot.HandleFetchFailure | main.go:94-102 | a failed fetch is reported once, after the one request, with the profile-error lead-in and the error |
| Bot.HandleRepliesOnlyToInfo | main.go:104-110 | after a successful fetch, a reply is sent exactly when the directive is `info`, and that reply is the player's info text |
| Bot.HandleNeverSendsPrediction | main.go:104-110 | no message, whatever the remote site returns, makes the bot send the predicted-rating text |
| Bot.HandleSpacedCommand | main.go:76-83 | "/pdga number directive" is handled as exactly that number and directive |
| Bot.TriggerNeedsNoSeparator | main.go:76-83 | the trigger needs no space after it: "/pdga123 info" requests the profile of 123 |
| Bot.PlayerOfProfilePage | lib/pdga/pdga.go:25-37 | a 200 response whose page title is `<name> #<number>` yields the player with the trimmed name and the trimmed fields |
| Bot.InfoScenario | main.go:73-111 | `/pdga <number> info`, for a profile page titled `<name> #<number>`, requests that profile and replies with the info text of the cleaned player |
| Bot.JaneDoeScenario | main.go:73-111 | "/pdga 123 info", with Jane Doe's page (rating 1005, Pro, Austin, TX), is answered with her info text, every value verbatim |
| Bot.NotFoundScenario | main.go:94-102 | a number the site answers with 404 gets the reply "Error retrieving player profile: PDGA Number invalid" |
| Bot.HandleSpacedBadNumber | main.go:119-121 | a first word that is not a valid number is refused before any request, whatever the directive |
| Bot.InvalidNumberScenario | main.go:84-92 | "/pdga abc info" makes no request and is answered with the usage lead-in and "PDGA number is invalid" |
| Bot.PredictRatingScenario | main.go:104-110 | `/pdga <number> predict_rating` with a successful fetch requests the profile and sends nothing |

## Left out

- The Discord session, `init`, `main` and the signal handling (`main.go:31-69`). These are
  process setup and I/O. The trigger `/pdga` that `init` sets is a constant of the model.
- `http.Get` and the closing of the body. The network is the `fetch` parameter, and a
  transport error is given as its message.
- The HTML parsing by `goquery`: the `#page-title` selection, and the removal of `strong`
  and `small` elements before the text is read. The four extracted texts are inputs of the
  model, and a body that cannot be parsed is an `Unreadable` response with its error
  message.
- Logging, the `DISCORD_TOKEN` environment variable, and the errors of
  `ChannelMessageSend`. Those errors are only logged, so the reply is recorded as sent.
- The unused `doc` field of `Player`, which is never set.
- GoText.Atoi: `strconv.Atoi` returns a `NumError` that tells a syntax error apart from a
  range error. The model returns only `None`, because the caller only checks whether an
  error occurred.
- Strings are sequences of Unicode scalar values. The model does not cover invalid UTF-8,
  which Go's `Fields` and `TrimSpace` decode to U+FFFD.
- GoText.RemoveAll: only the case with an empty replacement is modelled, which is the only
  one the source uses.
