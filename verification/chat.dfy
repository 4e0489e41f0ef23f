/**
 `enviarMensaje` of backend/src/controllers/chatController.js: the decision
 whether a posted chat message is accepted, what row is stored for it and on
 which Socket.IO channels it is announced. The insert itself and the
 broadcast delivery are not modelled; the row is the list of values the
 insert is given.
 */
module Chat {
  import opened JsText

  /** A field of the JSON request body, as far as the handler distinguishes them. */
  datatype Value = Undefined | Null | Num(n: int) | Str(s: string)

  /** JavaScript truthiness: undefined, null, 0 and "" are false. */
  predicate Truthy(v: Value)
  {
    match v
    case Undefined => false
    case Null => false
    case Num(n) => n != 0
    case Str(s) => s != ""
  }

  datatype Request = Request(username: Value, message: Value, stopId: Value, routeId: Value, kind: Value)

  /** The three 400 answers, in the order the handler checks for them. */
  datatype Rejection = MissingField | BlankMessage | MessageTooLong

  /** The values passed to the insert into `mensajes_chat`. */
  datatype Row = Row(username: Value, message: string, stopId: Value, routeId: Value, kind: Value)

  /**
   Where the stored message is announced: event `nuevo-mensaje` to every
   client, `nuevo-mensaje-parada` to room `parada-<id>` and
   `nuevo-mensaje-ruta` to room `ruta-<id>`.
   */
  datatype Channel = Everyone | StopRoom(stop: Value) | RouteRoom(route: Value)

  datatype Response =
    | BadRequest(reason: Rejection)          // 400
    | ServerError                            // 500: a truthy non-string message has no trim()
    | Created(row: Row, channels: seq<Channel>) // 201

  /** Longest accepted message, in UTF-16 code units of the untrimmed text. */
  const MaxMessageLength: nat := 500

  /** The kind used when the body has no `tipo` field. */
  const DefaultKind: string := "general"

  /** `v || null` */
  function OrNull(v: Value): Value
  {
    if Truthy(v) then v else Null
  }

  /** The announcements made for a stored message when a Socket.IO server is attached. */
  function Announce(stopId: Value, routeId: Value, hasIo: bool): (cs: seq<Channel>)
    ensures hasIo <==> Everyone in cs
    ensures hasIo ==> cs[0] == Everyone
    ensures forall c :: c in cs && c.StopRoom? ==> hasIo && Truthy(stopId) && c.stop == stopId
    ensures forall c :: c in cs && c.RouteRoom? ==> hasIo && Truthy(routeId) && c.route == routeId
    ensures hasIo && Truthy(stopId) ==> StopRoom(stopId) in cs
    ensures hasIo && Truthy(routeId) ==> RouteRoom(routeId) in cs
    ensures |cs| == if hasIo then 1 + (if Truthy(stopId) then 1 else 0) + (if Truthy(routeId) then 1 else 0) else 0
  {
    if !hasIo then []
    else
      [Everyone]
      + (if Truthy(stopId) then [StopRoom(stopId)] else [])
      + (if Truthy(routeId) then [RouteRoom(routeId)] else [])
  }

  /** The handler's answer to `req`; `hasIo` says whether `req.io` is set. */
  function Send(req: Request, hasIo: bool): (r: Response)
    // the checks, each characterised without Trim and in the order the handler makes them
    ensures r == BadRequest(MissingField) <==> !Truthy(req.username) || !Truthy(req.message)
    ensures r == ServerError <==> Truthy(req.username) && req.message.Num? && req.message.n != 0
    ensures r == BadRequest(BlankMessage) <==>
              Truthy(req.username) && req.message.Str? && req.message.s != [] && AllSpace(req.message.s)
    ensures r == BadRequest(MessageTooLong) <==>
              && Truthy(req.username) && req.message.Str? && !AllSpace(req.message.s)
              && Utf16Length(req.message.s) > MaxMessageLength
    ensures r.Created? <==>
              && Truthy(req.username) && req.message.Str? && !AllSpace(req.message.s)
              && Utf16Length(req.message.s) <= MaxMessageLength
    // what an accepted message is stored as
    ensures r.Created? ==>
              && r.row.username == req.username
              && r.row.message == Trim(req.message.s)
              && r.row.message != []
              && |r.row.message| <= MaxMessageLength
              && (Truthy(req.stopId) ==> r.row.stopId == req.stopId)
              && (!Truthy(req.stopId) ==> r.row.stopId == Null)
              && (Truthy(req.routeId) ==> r.row.routeId == req.routeId)
              && (!Truthy(req.routeId) ==> r.row.routeId == Null)
              && (req.kind == Undefined ==> r.row.kind == Str(DefaultKind))
              && (req.kind != Undefined ==> r.row.kind == req.kind)
              && r.channels == Announce(req.stopId, req.routeId, hasIo)
  {
    if !Truthy(req.username) || !Truthy(req.message) then BadRequest(MissingField)
    else if !req.message.Str? then ServerError
    else
      var text := req.message.s;
      if |Trim(text)| == 0 then BadRequest(BlankMessage)
      else if Utf16Length(text) > MaxMessageLength then BadRequest(MessageTooLong)
      else
        var kind := if req.kind == Undefined then Str(DefaultKind) else req.kind;
        Created(Row(req.username, Trim(text), OrNull(req.stopId), OrNull(req.routeId), kind),
                Announce(req.stopId, req.routeId, hasIo))
  }

  /** `n` spaces. */
  function Spaces(n: nat): (s: string)
    ensures |s| == n && AllSpace(s)
  {
    if n == 0 then [] else [' '] + Spaces(n - 1)
  }

  /**
   The length limit applies to the untrimmed text: a one-letter message padded
   with 500 or more spaces is refused although what would be stored is one
   character.
   */
  lemma PaddedMessageRefused(k: nat)
    requires k >= MaxMessageLength
    ensures var text := "x" + Spaces(k);
            && |Trim(text)| == 1
            && Send(Request(Str("ana"), Str(text), Undefined, Undefined, Undefined), true) == BadRequest(MessageTooLong)
  {
    var text := "x" + Spaces(k);
    PaddedTrim(k);
    assert !AllSpace(text) by { assert !IsSpace(text[0]); }
    assert Utf16Length(text) >= |text| == k + 1;
  }

  /** Trimming "x" followed by spaces leaves "x". */
  lemma PaddedTrim(k: nat)
    ensures Trim("x" + Spaces(k)) == "x"
  {
    var text := "x" + Spaces(k);
    assert text[1..] == Spaces(k);
    assert forall i :: 1 <= i < |text| ==> IsSpace(text[i]) by {
      forall i | 1 <= i < |text| ensures IsSpace(text[i]) {
        assert text[i] == Spaces(k)[i - 1];
      }
    }
    assert !IsSpace(text[0]);
    var t := Trim(text);
    assert t == text[0..|t|] && t != [];
    assert t[|t| - 1] == text[|t| - 1];
  }

  /**
   The blank check comes before the length check: 600 spaces are refused as
   blank, not as too long.
   */
  lemma BlankBeforeLength()
    ensures Send(Request(Str("ana"), Str(Spaces(600)), Undefined, Undefined, Undefined), true) == BadRequest(BlankMessage)
  {
  }

  /** `n` copies of a character outside the Basic Multilingual Plane. */
  function Astral(n: nat): (s: string)
    ensures |s| == n && Utf16Length(s) == 2 * n
    ensures n > 0 ==> !AllSpace(s)
  {
    if n == 0 then []
    else
      Utf16LengthOfChar('\U{1F68C}');
      Utf16LengthConcat(['\U{1F68C}'], Astral(n - 1));
      assert !IsSpace(('\U{1F68C}'));
      ['\U{1F68C}'] + Astral(n - 1)
  }

  /**
   The limit counts UTF-16 code units: n bus emoji are n characters but 2n
   units, so more than 250 of them are refused as too long, even when there
   are no more than 500 characters.
   */
  lemma EmojiMessageRefused(n: nat)
    requires 2 * n > MaxMessageLength
    ensures var text := Astral(n);
            && |text| == n
            && Send(Request(Str("ana"), Str(text), Undefined, Undefined, Undefined), true) == BadRequest(MessageTooLong)
  {
    var text := Astral(n);
    assert !AllSpace(text) && Utf16Length(text) == 2 * n;
    var req := Request(Str("ana"), Str(text), Undefined, Undefined, Undefined);
    assert Truthy(req.username) && req.message.Str? && Utf16Length(req.message.s) > MaxMessageLength;
  }
}
