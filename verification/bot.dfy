/** The bot's message handling (main.go): the gate that decides whether a
    chat message is a command for the bot, the parser that splits it into a
    PDGA number and a directive, and the dispatch that fetches the profile
    and chooses the reply.

    The chat session, the network and logging are outside the model. The
    handler receives the bot's own user ID, the incoming message and a
    `fetch` function standing for the remote site (URL to response), and
    returns the URL it requested, if any, and the reply it sent, if any. */
module Bot {
  import opened Wrappers
  import opened GoText
  import Pdga

  const TriggerCommand: string := "/pdga"

  /** The directive check tests for a substring of this text, the two
      directive words joined by a space, not for membership in a list of
      words. The source's single literal is written in pieces so that the
      proofs can name the two words. */
  const AllowedDirectives: string := "info" + " " + "predict_rating"

  datatype ParseError = InvalidArgumentCount | InvalidPdgaNumber | InvalidDirective {
    function Message(): string {
      match this
      case InvalidArgumentCount => "invalid number of arguments"
      case InvalidPdgaNumber => "PDGA number is invalid"
      case InvalidDirective => "directive invalid"
    }
  }

  datatype Command = Command(pdgaId: string, directive: string)

  /** The first field is accepted when `strconv.Atoi` reads it without error
      and the value is not negative: exactly the numerals `NonNegativeNumeral`
      describes. */
  predicate ValidPdgaNumber(t: string): (ok: bool)
    ensures ok <==> NonNegativeNumeral(t)
  {
    AtoiNonNegativeIff(t);
    var v := Atoi(t);
    v.Some? && v.value >= 0
  }

  /** The directive is accepted when it occurs in `AllowedDirectives`. For a
      single word that means: it is a piece of `info` or a piece of
      `predict_rating`. */
  predicate AllowedDirective(t: string): (ok: bool)
    ensures |t| > 0 && NoSpace(t) ==>
      (ok <==> Contains("info", t) || Contains("predict_rating", t))
  {
    // Both branches compute the same test; the first only calls the lemma
    // that proves the characterisation for a single word.
    if |t| > 0 && NoSpace(t) then
      ContainsInSpaceJoin("info", "predict_rating", t);
      Contains(AllowedDirectives, t)
    else
      Contains(AllowedDirectives, t)
  }

  /** `parseUserCommand`: three checks in order (field count, number,
      directive); the first that fails is the one reported. On success the
      first two fields are returned verbatim and any further ones ignored. */
  function ParseUserCommand(command: string): (r: Result<Command, ParseError>)
    ensures r == Failure(InvalidArgumentCount) <==> |Fields(command)| < 2
    ensures r == Failure(InvalidPdgaNumber) <==>
      |Fields(command)| >= 2 && !ValidPdgaNumber(Fields(command)[0])
    ensures r == Failure(InvalidDirective) <==>
      |Fields(command)| >= 2 && ValidPdgaNumber(Fields(command)[0])
      && !AllowedDirective(Fields(command)[1])
    ensures r.Success? ==>
      |Fields(command)| >= 2 && r.value == Command(Fields(command)[0], Fields(command)[1])
    ensures r.Success? ==>
      && |r.value.pdgaId| > 0 && NoSpace(r.value.pdgaId)
      && |r.value.directive| > 0 && NoSpace(r.value.directive)
  {
    var inputs := Fields(command);
    if |inputs| < 2 then Failure(InvalidArgumentCount)
    else if !ValidPdgaNumber(inputs[0]) then Failure(InvalidPdgaNumber)
    else if !AllowedDirective(inputs[1]) then Failure(InvalidDirective)
    else Success(Command(inputs[0], inputs[1]))
  }

  // ---------------------------------------------------------------------------
  // What the number check accepts

  /** An optional-sign-free run of digits whose value fits in a signed
      64-bit integer. */
  predicate InRangeDigits(d: string) {
    |d| > 0 && AllDigits(d) && DecimalValue(d) <= MaxInt64
  }

  predicate AllZeros(d: string) {
    |d| > 0 && forall i :: 0 <= i < |d| ==> d[i] == '0'
  }

  /** The numbers the check accepts, described as text: digits with an
      optional `+`, up to 2^63 - 1, or a `-` followed only by zeros. */
  predicate NonNegativeNumeral(t: string) {
    || InRangeDigits(t)
    || (|t| > 0 && t[0] == '+' && InRangeDigits(t[1..]))
    || (|t| > 0 && t[0] == '-' && AllZeros(t[1..]))
  }

  /** What `Atoi` reads as a non-negative value, described as text. */
  lemma AtoiNonNegativeIff(t: string)
    ensures (Atoi(t).Some? && Atoi(t).value >= 0) <==> NonNegativeNumeral(t)
  {
    if |t| > 0 && t[0] == '-' {
      var d := t[1..];
      if AllZeros(d) {
        DecimalValueZero(d);
      }
      if Atoi(t).Some? && Atoi(t).value >= 0 {
        DecimalValueZero(d);
      }
    }
  }

  /** A minus sign in front of zeros passes: `-0` reads as zero. */
  lemma NegativeZeroAccepted(z: string)
    requires AllZeros(z)
    ensures ValidPdgaNumber("-" + z)
  {
    assert ("-" + z)[1..] == z;
  }

  /** An explicit plus sign passes. */
  lemma PlusSignAccepted(n: int)
    requires 0 <= n <= MaxInt64
    ensures ValidPdgaNumber("+" + Itoa(n))
  {
    var d := Itoa(n);
    DecimalValueOfNat(n);
    assert ("+" + d)[1..] == d;
  }

  /** Leading zeros pass; the number is passed on as typed, zeros included. */
  lemma LeadingZeroAccepted(n: int)
    requires 0 <= n <= MaxInt64
    ensures ValidPdgaNumber("0" + Itoa(n))
  {
    var d := Itoa(n);
    DecimalValueOfNat(n);
    DecimalValueLeadingZero(d);
  }

  /** Every negative number other than zero fails. */
  lemma NegativeRejected(n: int)
    requires n > 0
    ensures !ValidPdgaNumber(Itoa(-n))
  {
    var t := Itoa(-n);
    assert t[1..] == NatToDecimal(n);
    DecimalValueOfNat(n);
  }

  /** A character other than a digit, anywhere but a leading sign, fails:
      letters, underscores, inner signs. */
  lemma NonDigitRejected(t: string, i: int)
    requires 0 <= i < |t| && !IsDigit(t[i])
    requires i > 0 || (t[0] != '+' && t[0] != '-')
    ensures !ValidPdgaNumber(t)
  {
    if t[0] == '+' || t[0] == '-' {
      assert t[1..][i - 1] == t[i];
    }
  }

  lemma NumberCheckExamples()
    ensures ValidPdgaNumber("-0") && ValidPdgaNumber("+5")
    ensures !ValidPdgaNumber("abc") && !ValidPdgaNumber("1_000")
  {
    NegativeZeroAccepted("0");
    PlusSignAccepted(5);
    assert Itoa(5) == "5";
    NonDigitRejected("abc", 0);
    NonDigitRejected("1_000", 1);
  }

  /** Of the numbers `%d` writes, exactly those from 0 to 2^63 - 1 pass: the
      check rejects what does not fit in Go's 64-bit `int`. */
  lemma ValidPdgaNumberOfItoa(n: int)
    requires n >= 0
    ensures ValidPdgaNumber(Itoa(n)) <==> n <= MaxInt64
  {
    DecimalValueOfNat(n);
    if n <= MaxInt64 {
      AtoiOfItoa(n);
    } else {
      assert IsDigit(Itoa(n)[0]);
    }
  }

  // ---------------------------------------------------------------------------
  // What the directive check accepts

  /** A word that occurs in neither directive word fails. */
  lemma RejectedIfNowhere(t: string)
    requires |t| > 0 && NoSpace(t)
    requires forall k :: !OccursAt("info", t, k)
    requires forall k :: !OccursAt("predict_rating", t, k)
    ensures !AllowedDirective(t)
  {
  }

  lemma InfoAccepted()
    ensures AllowedDirective("info")
  {
    ContainsSelf("info");
    ContainsInLeft("info", " ", "info");
    ContainsInLeft("info" + " ", "predict_rating", "info");
  }

  lemma PredictRatingAccepted()
    ensures AllowedDirective("predict_rating")
  {
    ContainsSelf("predict_rating");
    ContainsInRight("info" + " ", "predict_rating", "predict_rating");
  }

  /** Fragments of the directive words pass too. */
  lemma DirectiveFragmentsAccepted()
    ensures AllowedDirective("fo") && AllowedDirective("rating")
  {
    PieceOfInfoAccepted("in", "fo", "");
    PieceOfPredictRatingAccepted("predict_", "rating", "");
  }

  lemma PieceOfInfoAccepted(a: string, t: string, b: string)
    requires a + t + b == "info"
    ensures AllowedDirective(t)
  {
    ContainsPiece(a, t, b);
    ContainsInLeft(a + t + b, " ", t);
    ContainsInLeft(a + t + b + " ", "predict_rating", t);
  }

  lemma PieceOfPredictRatingAccepted(a: string, t: string, b: string)
    requires a + t + b == "predict_rating"
    ensures AllowedDirective(t)
  {
    ContainsPiece(a, t, b);
    ContainsInRight("info" + " ", a + t + b, t);
  }

  /** A word that merely starts like a directive fails. */
  lemma DirectiveExtensionRejected()
    ensures !AllowedDirective("information")
  {
    var t := "information";
    var p := "predict_rating";
    assert NoSpace(t);
    forall k
      ensures !OccursAt(p, t, k)
    {
      if 0 <= k <= |p| - |t| {
        assert p[k] != 'i';
        assert p[k..k + |t|][0] != t[0];
      }
    }
    RejectedIfNowhere(t);
  }

  // ---------------------------------------------------------------------------
  // Parsing as the inverse of writing a command

  /** Writing a valid command as its two words (plus any extra words)
      separated by spaces and parsing it gives the command back. */
  lemma ParseOfWrittenCommand(c: Command, extra: seq<string>)
    requires ValidPdgaNumber(c.pdgaId)
    requires AllowedDirective(c.directive) && |c.directive| > 0 && NoSpace(c.directive)
    requires forall i :: 0 <= i < |extra| ==> |extra[i]| > 0 && NoSpace(extra[i])
    ensures ParseUserCommand(JoinWithSpace([c.pdgaId, c.directive] + extra)) == Success(c)
  {
    var ts := [c.pdgaId, c.directive] + extra;
    FieldsOfJoin(ts);
  }

  /** Fewer than two words fail the count check whatever the words are. */
  lemma ParseShortCommand(w: string)
    requires NoSpace(w)
    ensures ParseUserCommand(w) == Failure(InvalidArgumentCount)
  {
    if |w| > 0 {
      FieldsOfTokenThen(w, "");
      assert w + "" == w;
    } else {
      FieldsEmptyIffAllSpace(w);
    }
  }

  /** The checks are ordered: a bad number is reported even when the
      directive is bad too. */
  lemma ParseReportsFirstFailure(id: string, d: string)
    requires |id| > 0 && NoSpace(id) && !ValidPdgaNumber(id)
    requires |d| > 0 && NoSpace(d) && !AllowedDirective(d)
    ensures ParseUserCommand(id + " " + d) == Failure(InvalidPdgaNumber)
  {
    FieldsOfTokenSpace(id, d);
    FieldsOfTokenThen(d, "");
    assert d + "" == d;
  }

  // ---------------------------------------------------------------------------
  // handleMessage

  datatype Message = Message(authorId: string, channelId: string, content: string)

  datatype Reply = Reply(channelId: string, text: string)

  /** What handling one message did: the profile URL requested, if any, and
      the reply sent, if any. */
  datatype Effects = Effects(request: Option<string>, reply: Option<Reply>)

  /** The lead-ins of the two error replies. Each is the source's single
      literal, written as two shorter literals only because the verifier
      reasons about long string literals slowly. */
  const UsageErrorPrefix: string := "Looks like " + "you used the bot wrong! \n "
  const ProfileErrorPrefix: string := "Error retrieving " + "player profile: "

  /** The handler after parsing: report a parse error without touching the
      network; otherwise request the profile, report a fetch error, and
      answer only the `info` directive. */
  function Respond(channelId: string, parsed: Result<Command, ParseError>,
                   fetch: string -> Pdga.Response): (e: Effects)
    ensures e.request.Some? <==> parsed.Success?
    ensures parsed.Success? ==> e.request == Some(Pdga.ProfileUrl(parsed.value.pdgaId))
    ensures parsed.Failure? ==>
      e.reply == Some(Reply(channelId, UsageErrorPrefix + parsed.error.Message()))
    ensures e.reply.Some? ==> e.reply.value.channelId == channelId
  {
    match parsed
    case Failure(err) =>
      Effects(None, Some(Reply(channelId, UsageErrorPrefix + err.Message())))
    case Success(cmd) =>
      var url := Pdga.ProfileUrl(cmd.pdgaId);
      match Pdga.NewPlayer(cmd.pdgaId, fetch(url))
      case Failure(err) =>
        Effects(Some(url), Some(Reply(channelId, ProfileErrorPrefix + err)))
      case Success(player) =>
        if cmd.directive == "info" then Effects(Some(url), Some(Reply(channelId, Pdga.Info(player))))
        else Effects(Some(url), None)
  }

  /** `handleMessage`: messages by the bot itself, and messages that do not
      start with the trigger, are ignored; otherwise exactly the trigger is
      cut off the front and the rest is parsed. */
  function HandleMessage(botUserId: string, m: Message, fetch: string -> Pdga.Response): (e: Effects)
    ensures m.authorId == botUserId || !HasPrefix(m.content, TriggerCommand) ==>
      e == Effects(None, None)
    ensures e.reply.Some? ==> e.reply.value.channelId == m.channelId
    ensures e.request.Some? ==> HasPrefix(e.request.value, Pdga.ProfileBaseUrl)
  {
    if m.authorId == botUserId || !HasPrefix(m.content, TriggerCommand) then
      Effects(None, None)
    else
      Respond(m.channelId, ParseUserCommand(TrimPrefix(m.content, TriggerCommand)), fetch)
  }

  /** A message accepted by the gate is parsed from the text after the
      trigger, with nothing else removed. */
  lemma HandleParsesAfterTrigger(botUserId: string, m: Message, rest: string,
                                 fetch: string -> Pdga.Response)
    requires m.authorId != botUserId
    requires m.content == TriggerCommand + rest
    ensures HandleMessage(botUserId, m, fetch)
      == Respond(m.channelId, ParseUserCommand(rest), fetch)
  {
    assert HasPrefix(m.content, TriggerCommand);
  }

  lemma HandleParsed(botUserId: string, m: Message, rest: string,
                     fetch: string -> Pdga.Response, c: Command)
    requires m.authorId != botUserId
    requires m.content == TriggerCommand + rest
    requires ParseUserCommand(rest) == Success(c)
    ensures HandleMessage(botUserId, m, fetch) == Respond(m.channelId, Success(c), fetch)
  {
    HandleParsesAfterTrigger(botUserId, m, rest, fetch);
  }

  /** A message that fails to parse is answered with the usage error and
      makes no request. */
  lemma HandleParseFailure(botUserId: string, m: Message, rest: string,
                           fetch: string -> Pdga.Response)
    requires m.authorId != botUserId
    requires m.content == TriggerCommand + rest
    requires ParseUserCommand(rest).Failure?
    ensures HandleMessage(botUserId, m, fetch).request == None
    ensures HandleMessage(botUserId, m, fetch).reply
      == Some(Reply(m.channelId, UsageErrorPrefix + ParseUserCommand(rest).error.Message()))
  {
    HandleParsesAfterTrigger(botUserId, m, rest, fetch);
  }

  /** After a successful parse and a successful fetch, a reply is sent
      exactly when the directive is `info`, and it is the player's info. */
  lemma HandleRepliesOnlyToInfo(botUserId: string, m: Message, rest: string,
                                fetch: string -> Pdga.Response)
    requires m.authorId != botUserId
    requires m.content == TriggerCommand + rest
    requires ParseUserCommand(rest).Success?
    requires
      var c := ParseUserCommand(rest).value;
      Pdga.NewPlayer(c.pdgaId, fetch(Pdga.ProfileUrl(c.pdgaId))).Success?
    ensures
      var c := ParseUserCommand(rest).value;
      var p := Pdga.NewPlayer(c.pdgaId, fetch(Pdga.ProfileUrl(c.pdgaId))).value;
      var e := HandleMessage(botUserId, m, fetch);
      && e.request == Some(Pdga.ProfileUrl(c.pdgaId))
      && (e.reply.Some? <==> c.directive == "info")
      && (e.reply.Some? ==> e.reply.value.text == Pdga.Info(p))
  {
    HandleParsesAfterTrigger(botUserId, m, rest, fetch);
  }

  /** A failed fetch is reported once, after the request was made. */
  lemma HandleFetchFailure(botUserId: string, m: Message, rest: string,
                           fetch: string -> Pdga.Response)
    requires m.authorId != botUserId
    requires m.content == TriggerCommand + rest
    requires ParseUserCommand(rest).Success?
    requires
      var c := ParseUserCommand(rest).value;
      Pdga.NewPlayer(c.pdgaId, fetch(Pdga.ProfileUrl(c.pdgaId))).Failure?
    ensures
      var c := ParseUserCommand(rest).value;
      var err := Pdga.NewPlayer(c.pdgaId, fetch(Pdga.ProfileUrl(c.pdgaId))).error;
      HandleMessage(botUserId, m, fetch)
        == Effects(Some(Pdga.ProfileUrl(c.pdgaId)), Some(Reply(m.channelId, ProfileErrorPrefix + err)))
  {
    HandleParsesAfterTrigger(botUserId, m, rest, fetch);
  }

  /** Every reply opens with one of three lead-ins: the usage error, the
      profile error, or the info header. */
  lemma RespondReplyLead(channelId: string, parsed: Result<Command, ParseError>,
                         fetch: string -> Pdga.Response)
    ensures
      var e := Respond(channelId, parsed, fetch);
      e.reply.Some? ==>
        || HasPrefix(e.reply.value.text, UsageErrorPrefix)
        || HasPrefix(e.reply.value.text, ProfileErrorPrefix)
        || HasPrefix(e.reply.value.text, Pdga.InfoHeader)
  {
    var e := Respond(channelId, parsed, fetch);
    if e.reply.Some? {
      var t := e.reply.value.text;
      if parsed.Failure? {
        assert t == UsageErrorPrefix + parsed.error.Message();
        PrefixOfConcat(UsageErrorPrefix, parsed.error.Message());
      } else {
        var c := parsed.value;
        var r := Pdga.NewPlayer(c.pdgaId, fetch(Pdga.ProfileUrl(c.pdgaId)));
        if r.Failure? {
          assert t == ProfileErrorPrefix + r.error;
          PrefixOfConcat(ProfileErrorPrefix, r.error);
        } else {
          assert t == Pdga.Info(r.value);
          Pdga.InfoHasHeader(r.value);
        }
      }
    }
  }

  lemma UsageLead() ensures UsageErrorPrefix[0] == 'L' {
    var l := "Looks like ";
    assert l[0] == 'L';
  }

  lemma ProfileErrorLead() ensures ProfileErrorPrefix[0] == 'E' {
    var e := "Error retrieving ";
    assert e[0] == 'E';
  }

  lemma InfoLead() ensures Pdga.InfoHeader[0] == 'H' {
    var h := "Here is the basic ";
    assert h[0] == 'H';
  }

  lemma PredictionLead() ensures Pdga.PredictedRatingMessage[0] == 'Y' {
    var y := "Your predicted rating is ";
    assert y[0] == 'Y';
  }

  /** The prediction stub is never sent: whatever the message and the
      remote site, no reply is the predicted-rating text. */
  lemma HandleNeverSendsPrediction(botUserId: string, m: Message,
                                   fetch: string -> Pdga.Response, p: Pdga.Player)
    ensures
      var e := HandleMessage(botUserId, m, fetch);
      e.reply.Some? ==> e.reply.value.text != Pdga.PredictRating(p)
  {
    var e := HandleMessage(botUserId, m, fetch);
    PredictionLead();
    if e.reply.Some? {
      var t := e.reply.value.text;
      RespondReplyLead(m.channelId, ParseUserCommand(TrimPrefix(m.content, TriggerCommand)), fetch);
      if HasPrefix(t, UsageErrorPrefix) {
        UsageLead();
        PrefixLead(t, UsageErrorPrefix);
      } else if HasPrefix(t, ProfileErrorPrefix) {
        ProfileErrorLead();
        PrefixLead(t, ProfileErrorPrefix);
      } else {
        InfoLead();
        PrefixLead(t, Pdga.InfoHeader);
      }
    }
  }

  // ---------------------------------------------------------------------------
  // End-to-end scenarios

  /** A command typed as space, number, space, directive parses to exactly
      that number and directive. */
  lemma ParseSpacedCommand(id: string, d: string)
    requires ValidPdgaNumber(id)
    requires AllowedDirective(d) && |d| > 0 && NoSpace(d)
    ensures ParseUserCommand(id + " " + d) == Success(Command(id, d))
    ensures ParseUserCommand(" " + id + " " + d) == Success(Command(id, d))
  {
    NumberIsToken(id);
    FieldsOfSpacedPair(id, d);
  }

  /** Two regroupings of a message's text, named as instances of
      associativity so that the scenario proofs that use them stay cheap;
      `SeqAssoc` is the general step. */
  lemma Regroup(a: string, b: string, c: string, d: string)
    ensures a + b + c + d == a + (b + c + d)
  {
  }

  lemma RegroupSpaced(t: string, a: string, b: string)
    ensures t + " " + a + " " + b == t + (" " + a + " " + b)
  {
  }

  /** A message reading trigger, space, number, space, directive is handled
      as exactly that number and directive. */
  lemma HandleSpacedCommand(botUserId: string, m: Message, id: string, d: string,
                            fetch: string -> Pdga.Response)
    requires m.authorId != botUserId
    requires m.content == TriggerCommand + " " + id + " " + d
    requires ValidPdgaNumber(id)
    requires AllowedDirective(d) && |d| > 0 && NoSpace(d)
    ensures HandleMessage(botUserId, m, fetch) == Respond(m.channelId, Success(Command(id, d)), fetch)
  {
    ParseSpacedCommand(id, d);
    RegroupSpaced(TriggerCommand, id, d);
    HandleParsed(botUserId, m, " " + id + " " + d, fetch, Command(id, d));
  }

  /** The trigger need not be followed by a space: the text right after it
      is read as the number. */
  lemma TriggerNeedsNoSeparator(botUserId: string, m: Message, id: string, d: string,
                                fetch: string -> Pdga.Response)
    requires m.authorId != botUserId
    requires m.content == TriggerCommand + id + " " + d
    requires ValidPdgaNumber(id)
    requires AllowedDirective(d) && |d| > 0 && NoSpace(d)
    ensures HandleMessage(botUserId, m, fetch).request == Some(Pdga.ProfileUrl(id))
  {
    ParseSpacedCommand(id, d);
    Regroup(TriggerCommand, id, " ", d);
    HandleParsed(botUserId, m, id + " " + d, fetch, Command(id, d));
  }

  lemma NumberIsToken(id: string)
    requires ValidPdgaNumber(id)
    ensures |id| > 0 && NoSpace(id)
  {
  }

  /** After a successful fetch, `Respond` answers `info` with the player's
      info text and stays silent on any other directive. */
  lemma RespondAfterFetch(channelId: string, c: Command, fetch: string -> Pdga.Response)
    requires Pdga.NewPlayer(c.pdgaId, fetch(Pdga.ProfileUrl(c.pdgaId))).Success?
    ensures
      var p := Pdga.NewPlayer(c.pdgaId, fetch(Pdga.ProfileUrl(c.pdgaId))).value;
      Respond(channelId, Success(c), fetch) == Effects(Some(Pdga.ProfileUrl(c.pdgaId)),
        if c.directive == "info" then Some(Reply(channelId, Pdga.Info(p))) else None)
  {
  }

  /** The texts of a profile page titled `<name> #<id>` become a player with
      the cleaned name and trimmed fields. */
  lemma PlayerOfProfilePage(id: string, name: string, page: Pdga.PageText, status: string)
    requires forall k :: 0 <= k < |name| ==> name[k] != '#'
    requires page.title == name + " #" + id
    ensures Pdga.NewPlayer(id, Pdga.HttpResponse(200, status, Pdga.Document(page)))
      == Success(Pdga.Player(id, TrimSpace(name), TrimSpace(page.location),
                             TrimSpace(page.classification), TrimSpace(page.currentRating)))
  {
    Pdga.CleanNameOfProfileTitle(name, id);
  }

  lemma InfoIsToken()
    ensures AllowedDirective("info") && |"info"| > 0 && NoSpace("info")
  {
    InfoAccepted();
  }

  /** `/pdga <id> info` for a profile page titled `<name> #<id>` is answered
      with the info text of the cleaned name and trimmed fields. */
  lemma InfoScenario(botUserId: string, m: Message, id: string, name: string,
                     page: Pdga.PageText, status: string, fetch: string -> Pdga.Response)
    requires m.authorId != botUserId
    requires m.content == TriggerCommand + " " + id + " " + "info"
    requires ValidPdgaNumber(id)
    requires forall k :: 0 <= k < |name| ==> name[k] != '#'
    requires page.title == name + " #" + id
    requires fetch(Pdga.ProfileUrl(id)) == Pdga.HttpResponse(200, status, Pdga.Document(page))
    ensures HandleMessage(botUserId, m, fetch) == Effects(
      Some(Pdga.ProfileUrl(id)),
      Some(Reply(m.channelId, Pdga.Info(Pdga.Player(
        id, TrimSpace(name), TrimSpace(page.location),
        TrimSpace(page.classification), TrimSpace(page.currentRating))))))
  {
    InfoIsToken();
    HandleSpacedCommand(botUserId, m, id, "info", fetch);
    PlayerOfProfilePage(id, name, page, status);
    RespondAfterFetch(m.channelId, Command(id, "info"), fetch);
  }

  lemma TrimmedWord(w: string)
    requires |w| > 0 && !IsSpace(w[0]) && !IsSpace(w[|w| - 1])
    ensures TrimSpace(w) == w
  {
    TrimSpaceCharacterized(w, 0, |w|);
  }

  lemma JaneDoeTitle()
    ensures "Jane Doe #123" == "Jane Doe" + " #" + "123"
    ensures forall k :: 0 <= k < |"Jane Doe"| ==> "Jane Doe"[k] != '#'
  {
  }

  lemma JaneDoeMessage(m: Message)
    requires m.content == "/pdga 123 info"
    ensures m.content == TriggerCommand + " " + "123" + " " + "info"
    ensures ValidPdgaNumber("123")
  {
    ValidPdgaNumberOfItoa(123);
    assert Itoa(123) == "123";
  }

  lemma JaneDoeNameTrimmed()
    ensures TrimSpace("Jane Doe") == "Jane Doe"
    ensures TrimSpace("Austin, TX") == "Austin, TX"
  {
    TrimmedWord("Jane Doe");
    TrimmedWord("Austin, TX");
  }

  lemma JaneDoeFieldsTrimmed()
    ensures TrimSpace("Pro") == "Pro"
    ensures TrimSpace("1005") == "1005"
  {
    TrimmedWord("Pro");
    TrimmedWord("1005");
  }

  /** The worked example: player 123, Jane Doe, rated 1005, Pro, Austin. */
  lemma JaneDoeScenario(botUserId: string, m: Message, fetch: string -> Pdga.Response)
    requires m.authorId != botUserId
    requires m.content == "/pdga 123 info"
    requires fetch(Pdga.ProfileUrl("123")) == Pdga.HttpResponse(
      200, "200 OK",
      Pdga.Document(Pdga.PageText("Jane Doe #123", "1005", "Pro", "Austin, TX")))
    ensures HandleMessage(botUserId, m, fetch).reply == Some(Reply(m.channelId,
      Pdga.Info(Pdga.Player("123", "Jane Doe", "Austin, TX", "Pro", "1005"))))
  {
    JaneDoeMessage(m);
    JaneDoeTitle();
    JaneDoeNameTrimmed();
    JaneDoeFieldsTrimmed();
    InfoScenario(botUserId, m, "123", "Jane Doe",
      Pdga.PageText("Jane Doe #123", "1005", "Pro", "Austin, TX"), "200 OK", fetch);
  }

  /** A number the site does not know is answered with the not-found
      message behind the profile-error lead-in. */
  lemma NotFoundScenario(botUserId: string, m: Message, id: string, d: string,
                         status: string, body: Pdga.Body, fetch: string -> Pdga.Response)
    requires m.authorId != botUserId
    requires m.content == TriggerCommand + " " + id + " " + d
    requires ValidPdgaNumber(id)
    requires AllowedDirective(d) && |d| > 0 && NoSpace(d)
    requires fetch(Pdga.ProfileUrl(id)) == Pdga.HttpResponse(404, status, body)
    ensures HandleMessage(botUserId, m, fetch).reply
      == Some(Reply(m.channelId, ProfileErrorPrefix + Pdga.NotFoundMessage))
  {
    HandleSpacedCommand(botUserId, m, id, d, fetch);
  }

  /** A first word that is not a number is refused before any request,
      whatever follows it. */
  lemma HandleSpacedBadNumber(botUserId: string, m: Message, t: string, d: string,
                              fetch: string -> Pdga.Response)
    requires m.authorId != botUserId
    requires m.content == TriggerCommand + " " + t + " " + d
    requires |t| > 0 && NoSpace(t) && !ValidPdgaNumber(t)
    requires |d| > 0 && NoSpace(d)
    ensures HandleMessage(botUserId, m, fetch) == Effects(None,
      Some(Reply(m.channelId, UsageErrorPrefix + InvalidPdgaNumber.Message())))
  {
    FieldsOfSpacedPair(t, d);
    RegroupSpaced(TriggerCommand, t, d);
    HandleParseFailure(botUserId, m, " " + t + " " + d, fetch);
  }

  lemma AbcMessage(m: Message)
    requires m.content == "/pdga abc info"
    ensures m.content == TriggerCommand + " " + "abc" + " " + "info"
    ensures |"abc"| > 0 && NoSpace("abc") && !ValidPdgaNumber("abc")
    ensures |"info"| > 0 && NoSpace("info")
  {
    NonDigitRejected("abc", 0);
  }

  /** A number that is not a number is refused before any request. */
  lemma InvalidNumberScenario(botUserId: string, m: Message, fetch: string -> Pdga.Response)
    requires m.authorId != botUserId
    requires m.content == "/pdga abc info"
    ensures HandleMessage(botUserId, m, fetch) == Effects(None,
      Some(Reply(m.channelId, UsageErrorPrefix + "PDGA number is invalid")))
  {
    AbcMessage(m);
    HandleSpacedBadNumber(botUserId, m, "abc", "info", fetch);
  }

  lemma PredictRatingIsToken()
    ensures AllowedDirective("predict_rating") && |"predict_rating"| > 0 && NoSpace("predict_rating")
  {
    PredictRatingAccepted();
    VisibleAsciiNoSpace("predict_rating");
  }

  /** `predict_rating` is accepted and the profile is fetched, but nothing
      is sent back. */
  lemma PredictRatingScenario(botUserId: string, m: Message, id: string,
                              fetch: string -> Pdga.Response)
    requires m.authorId != botUserId
    requires m.content == TriggerCommand + " " + id + " " + "predict_rating"
    requires ValidPdgaNumber(id)
    requires Pdga.NewPlayer(id, fetch(Pdga.ProfileUrl(id))).Success?
    ensures HandleMessage(botUserId, m, fetch) == Effects(Some(Pdga.ProfileUrl(id)), None)
  {
    PredictRatingIsToken();
    HandleSpacedCommand(botUserId, m, id, "predict_rating", fetch);
    RespondAfterFetch(m.channelId, Command(id, "predict_rating"), fetch);
  }
}
