/** The PDGA profile package (lib/pdga/pdga.go): fetching a player's profile
    page, classifying the HTTP status, cleaning the extracted texts into a
    `Player`, and rendering a player as reply text.

    The HTTP GET and the HTML querying are outside the model. Their outcome
    arrives as a `Response`: either a transport failure, or a status code and
    status line with a body that is either unreadable or a document from
    which the four selector texts have already been taken. */
module Pdga {
  import opened Wrappers
  import opened GoText

  const ProfileBaseUrl: string := "https://www.pdga.com/player/"

  /** Address of the profile page for a PDGA number: the base path followed
      by the number exactly as the user typed it. */
  function ProfileUrl(id: string): (url: string)
    ensures HasPrefix(url, ProfileBaseUrl) && TrimPrefix(url, ProfileBaseUrl) == id
  {
    ProfileBaseUrl + id
  }

  /** Text of the `#page-title` element and of the `.current-rating`,
      `.classification` and `.location` elements (the latter three with
      their `strong` and `small` children already removed), untrimmed. */
  datatype PageText = PageText(
    title: string,
    currentRating: string,
    classification: string,
    location: string)

  datatype Body =
    | Unreadable(message: string)
    | Document(page: PageText)

  datatype Response =
    | TransportFailure(message: string)
    | HttpResponse(statusCode: int, status: string, body: Body)

  /** The four fields `grabBasicPdgaInfo` returns on success. */
  datatype BasicInfo = BasicInfo(
    name: string,
    currentRating: string,
    location: string,
    classification: string)

  /** A player profile. The source struct's `doc` cache field is never set
      and is not modelled. */
  datatype Player = Player(
    id: string,
    name: string,
    location: string,
    classification: string,
    currentRating: string)

  const NotFoundMessage: string := "PDGA Number invalid"
  /** The lead-in of the message for any other failing status. It is written
      word by word because the proofs read it back as words
      (`StatusErrorNamesCode`). */
  const StatusErrorPrefix: string := "status" + " " + "code" + " " + "error:" + " "

  /** Classification of the response status: `None` lets extraction go
      ahead, `Some(message)` is the error returned instead. */
  function StatusError(statusCode: int, status: string): (r: Option<string>)
    ensures r.None? <==> statusCode == 200
    ensures statusCode == 404 ==> r == Some(NotFoundMessage)
    ensures statusCode != 200 && statusCode != 404 ==>
      r.Some? && HasPrefix(r.value, StatusErrorPrefix)
  {
    if statusCode != 200 then
      if statusCode == 404 then Some(NotFoundMessage)
      else Some(StatusErrorPrefix + Itoa(statusCode) + " " + status)
    else None
  }

  /** A not-found status can always be told apart from every other failing
      status by its message. */
  lemma NotFoundIsDistinct(code: int, status: string, status': string)
    requires code != 200 && code != 404
    ensures StatusError(code, status) != StatusError(404, status')
  {
    assert NotFoundMessage[0] != StatusErrorPrefix[0];
  }

  lemma StatusWordsAreTokens()
    ensures NoSpace("status") && NoSpace("code") && NoSpace("error:")
  {
  }

  lemma StatusMessageIsJoin(n: string, status: string)
    ensures StatusErrorPrefix + n + " " + status
      == JoinWithSpace(["status", "code", "error:", n]) + " " + status
  {
    JoinFour("status", "code", "error:", n);
  }

  /** The message of any other failing status names the code as its fourth
      word, followed by the words of the status line; reading that word back
      as a number gives the code. */
  lemma StatusErrorNamesCode(code: int, status: string)
    requires code != 200 && code != 404
    requires MinInt64 <= code <= MaxInt64
    ensures Fields(StatusError(code, status).value)
      == ["status", "code", "error:", Itoa(code)] + Fields(status)
    ensures Atoi(Fields(StatusError(code, status).value)[3]) == Some(code)
  {
    var n := Itoa(code);
    StatusWordsAreTokens();
    StatusMessageIsJoin(n, status);
    FieldsOfJoinThen(["status", "code", "error:", n], status);
    AtoiOfItoa(code);
  }

  /** The player's name: the page title with every `#<id>` cut out, trimmed. */
  function CleanName(title: string, id: string): (name: string)
    ensures |name| > 0 ==> !IsSpace(name[0]) && !IsSpace(name[|name| - 1])
    ensures |name| <= |title|
  {
    TrimSpace(RemoveAll(title, "#" + id))
  }

  /** A title without the `#<id>` marker is only trimmed. */
  lemma CleanNameWithoutMarker(title: string, id: string)
    requires !Contains(title, "#" + id)
    ensures CleanName(title, id) == TrimSpace(title)
  {
  }

  /** The usual page title, `<name> #<id>`, gives back the trimmed name
      whenever the name itself holds no `#`. */
  lemma CleanNameOfProfileTitle(name: string, id: string)
    requires forall k :: 0 <= k < |name| ==> name[k] != '#'
    ensures CleanName(name + " #" + id, id) == TrimSpace(name)
  {
    var a := name + " ";
    assert name + " #" + id == a + ("#" + id) + "";
    RemoveAllAfterClearPrefix(a, "#" + id, "");
    assert RemoveAll("", "#" + id) == "";
    assert a + "" == name + " ";
    TrimSpaceIgnoresTrailing(name, " ");
  }

  /** `grabBasicPdgaInfo`, after the GET: a transport failure, a status other
      than 200, or an unreadable body is an error; otherwise the name is
      cleaned and the other three texts are trimmed. */
  function GrabBasicPdgaInfo(id: string, resp: Response): (r: Result<BasicInfo, string>)
    ensures r.Success? <==> resp.HttpResponse? && resp.statusCode == 200 && resp.body.Document?
    ensures resp.TransportFailure? ==> r == Failure(resp.message)
    ensures resp.HttpResponse? && resp.statusCode == 404 ==> r == Failure(NotFoundMessage)
    ensures resp.HttpResponse? && resp.statusCode != 200 && resp.statusCode != 404 ==>
      r == Failure(StatusErrorPrefix + Itoa(resp.statusCode) + " " + resp.status)
    ensures resp.HttpResponse? && resp.statusCode == 200 && resp.body.Unreadable? ==>
      r == Failure(resp.body.message)
  {
    match resp
    case TransportFailure(message) => Failure(message)
    case HttpResponse(code, status, body) =>
      match StatusError(code, status)
      case Some(message) => Failure(message)
      case None =>
        match body
        case Unreadable(message) => Failure(message)
        case Document(page) =>
          Success(BasicInfo(
            CleanName(page.title, id),
            TrimSpace(page.currentRating),
            TrimSpace(page.location),
            TrimSpace(page.classification)))
  }

  /** `NewPlayer`: all or nothing. A player exists exactly when the profile
      page was fetched and read; it carries the requested number and the
      cleaned texts, each under its own field. On failure there is only the
      error. */
  function NewPlayer(id: string, resp: Response): (r: Result<Player, string>)
    ensures r.Success? <==> resp.HttpResponse? && resp.statusCode == 200 && resp.body.Document?
    ensures r.Success? ==>
      var page := resp.body.page;
      && r.value.id == id
      && r.value.name == CleanName(page.title, id)
      && r.value.location == TrimSpace(page.location)
      && r.value.classification == TrimSpace(page.classification)
      && r.value.currentRating == TrimSpace(page.currentRating)
    ensures r.Failure? ==> r.error == GrabBasicPdgaInfo(id, resp).error
  {
    match GrabBasicPdgaInfo(id, resp)
    case Success(info) =>
      Success(Player(id, info.name, info.location, info.classification, info.currentRating))
    case Failure(e) => Failure(e)
  }

  /** The first words of the info text. The value is the source's single
      literal; it is written as a concatenation of short literals only
      because the verifier reasons about long string literals slowly. */
  const InfoHeader: string := "Here is the basic " + "information on " + "PDGA Number "
  const NameLabel: string := "\tName:           "
  const ClassificationLabel: string := "\tClassification: "
  const LocationLabel: string := "\tLocation: \t\t"
  const RatingLabel: string := "\tCurrent Rating: "

  /** `Info`: the number, name, classification, location and current rating,
      one per line after a fixed label, and a last line holding one tab. */
  function Info(p: Player): (r: string)
    ensures HasPrefix(r, InfoHeader + p.id + ".\n")
  {
    var r := InfoHeader + p.id + ".\n"
      + NameLabel + p.name + "\n"
      + ClassificationLabel + p.classification + "\n"
      + LocationLabel + p.location + "\n"
      + RatingLabel + p.currentRating + "\n"
      + "\t";
    assert r[..|InfoHeader + p.id + ".\n"|] == InfoHeader + p.id + ".\n";
    r
  }

  lemma InfoHasHeader(p: Player)
    ensures HasPrefix(Info(p), InfoHeader)
  {
    PrefixOfPrefix(Info(p), InfoHeader + p.id, ".\n");
    PrefixOfPrefix(Info(p), InfoHeader, p.id);
  }

  predicate SingleLineFields(p: Player) {
    && NoNewline(p.id)
    && NoNewline(p.name)
    && NoNewline(p.location)
    && NoNewline(p.classification)
    && NoNewline(p.currentRating)
  }

  lemma LabelsSingleLine()
    ensures NoNewline(InfoHeader) && NoNewline(".")
    ensures NoNewline(NameLabel) && NoNewline(ClassificationLabel)
    ensures NoNewline(LocationLabel) && NoNewline(RatingLabel)
  {
    var a, b, c := "Here is the basic ", "information on ", "PDGA Number ";
    assert NoNewline(a) && NoNewline(b) && NoNewline(c);
    NoNewlineConcat(a, b);
    NoNewlineConcat(a + b, c);
  }

  /** The five lines of the info text that carry fields, and the last. */
  function InfoLineList(p: Player): (ls: seq<string>)
    ensures |ls| == 6
  {
    [ InfoHeader + p.id + ".",
      NameLabel + p.name,
      ClassificationLabel + p.classification,
      LocationLabel + p.location,
      RatingLabel + p.currentRating,
      "\t" ]
  }

  /** The shape of the info text with its labels left open: five labelled
      lines and a last line holding one tab. */
  lemma LabelledLinesAreJoin(h: string, id: string, nl: string, name: string,
                             cl: string, cls: string, ll: string, loc: string,
                             rl: string, rating: string)
    ensures h + id + ".\n" + nl + name + "\n" + cl + cls + "\n" + ll + loc + "\n"
      + rl + rating + "\n" + "\t"
      == JoinLines([h + id + ".", nl + name, cl + cls, ll + loc, rl + rating, "\t"])
  {
    var a, b, c, d, e := h + id + ".", nl + name, cl + cls, ll + loc, rl + rating;
    JoinLinesCons(e, ["\t"]);
    assert [e, "\t"] == [e] + ["\t"];
    JoinLinesCons(d, [e, "\t"]);
    assert [d, e, "\t"] == [d] + [e, "\t"];
    JoinLinesCons(c, [d, e, "\t"]);
    assert [c, d, e, "\t"] == [c] + [d, e, "\t"];
    JoinLinesCons(b, [c, d, e, "\t"]);
    assert [b, c, d, e, "\t"] == [b] + [c, d, e, "\t"];
    JoinLinesCons(a, [b, c, d, e, "\t"]);
    assert [a, b, c, d, e, "\t"] == [a] + [b, c, d, e, "\t"];
    assert ".\n" == "." + "\n";
  }

  lemma InfoIsJoin(p: Player)
    ensures Info(p) == JoinLines(InfoLineList(p))
  {
    LabelledLinesAreJoin(InfoHeader, p.id, NameLabel, p.name, ClassificationLabel,
      p.classification, LocationLabel, p.location, RatingLabel, p.currentRating);
  }

  /** When no field spans lines, the reply has exactly six lines, each
      field on its own line after its label, in the order number, name,
      classification, location, current rating. */
  lemma InfoLines(p: Player)
    requires SingleLineFields(p)
    ensures SplitLines(Info(p)) == [
      InfoHeader + p.id + ".",
      NameLabel + p.name,
      ClassificationLabel + p.classification,
      LocationLabel + p.location,
      RatingLabel + p.currentRating,
      "\t"]
  {
    LabelsSingleLine();
    NoNewlineConcat(InfoHeader, p.id);
    NoNewlineConcat(InfoHeader + p.id, ".");
    NoNewlineConcat(NameLabel, p.name);
    NoNewlineConcat(ClassificationLabel, p.classification);
    NoNewlineConcat(LocationLabel, p.location);
    NoNewlineConcat(RatingLabel, p.currentRating);
    assert NoNewline("\t");
    InfoIsJoin(p);
    SplitLinesOfJoin(InfoLineList(p));
  }

  /** The info text determines the player: two players whose fields hold no
      newlines get the same reply only when they are the same player. */
  lemma InfoInjective(p: Player, q: Player)
    requires SingleLineFields(p) && SingleLineFields(q)
    requires Info(p) == Info(q)
    ensures p == q
  {
    InfoLines(p);
    InfoLines(q);
    var lp := SplitLines(Info(p));
    var lq := SplitLines(Info(q));
    assert lp == lq;
    assert lp[0] == InfoHeader + p.id + "." && lq[0] == InfoHeader + q.id + ".";
    assert p.id == lp[0][|InfoHeader|..|lp[0]| - 1];
    assert q.id == lq[0][|InfoHeader|..|lq[0]| - 1];
    assert p.name == lp[1][|NameLabel|..] && q.name == lq[1][|NameLabel|..];
    assert p.classification == lp[2][|ClassificationLabel|..];
    assert q.classification == lq[2][|ClassificationLabel|..];
    assert p.location == lp[3][|LocationLabel|..] && q.location == lq[3][|LocationLabel|..];
    assert p.currentRating == lp[4][|RatingLabel|..] && q.currentRating == lq[4][|RatingLabel|..];
  }

  /** The stub's text, the source's single literal written in three pieces
      so that the proofs can name the predicted number in the middle. */
  const PredictedRatingMessage: string := "Your predicted rating is " + "1050" + ".  You're a crusher!"

  /** `PredictRating`: a stub that ignores the player and always names the
      same rating. */
  function PredictRating(p: Player): (r: string)
    ensures Contains(r, "1050")
  {
    ContainsPiece("Your predicted rating is ", "1050", ".  You're a crusher!");
    PredictedRatingMessage
  }

  /** Every player gets the same prediction, and it names 1050. */
  lemma PredictRatingIgnoresPlayer(p: Player, q: Player)
    ensures PredictRating(p) == PredictRating(q)
    ensures Contains(PredictRating(p), "1050")
  {
  }
}
