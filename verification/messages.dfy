/** `url`: the first link in a message or the message it replies to
    (SHUKLAMUSIC/platforms/Youtube.py:169-194), over an abstract model of the
    chat library's messages and entities. */
module Messages {
  import opened Optional

  datatype EntityKind = UrlEntity | TextLinkEntity | OtherEntity

  /** A formatting entity: its kind, its span in the text, and the target
      of a text link. */
  datatype Entity = Entity(kind: EntityKind, offset: nat, length: nat, url: Option<string>)

  /** The parts of a message `url` reads. An absent entity list is empty. */
  datatype Message = Message(
    text: Option<string>,
    caption: Option<string>,
    entities: seq<Entity>,
    captionEntities: seq<Entity>)

  /** The span recorded when a URL entity is found. */
  datatype Span = Span(text: Option<string>, offset: nat, length: nat)

  /** What one message contributes: a text-link target to return at once,
      a URL span, or nothing. */
  datatype Step = Link(url: Option<string>) | Hit(span: Span) | Miss

  /** How the scan of the next message is guarded: `if offset:` as written
      (offset 0 counts as nothing found), or `offset is not None`. */
  datatype StopRule = OffsetTruthy | OffsetPresent

  datatype ScanEnd = Done(url: Option<string>) | End(span: Option<Span>)

  /** `TypeError` from slicing `None` when neither text nor caption is set. */
  datatype UrlError = TypeError

  /** The position of the first entity of kind `k`, or `|es|`. */
  function FirstOfKind(es: seq<Entity>, k: EntityKind): (i: nat)
    ensures i <= |es|
    ensures i < |es| ==> es[i].kind == k
    ensures forall j :: 0 <= j < i ==> es[j].kind != k
    decreases |es|
  {
    if |es| == 0 then 0 else if es[0].kind == k then 0 else 1 + FirstOfKind(es[1..], k)
  }

  /** `msg.text or msg.caption`. */
  function TextOf(m: Message): Option<string> {
    if m.text.Some? && m.text.value != "" then m.text else m.caption
  }

  /** The inner loops: the entity list when it is non-empty, else the
      caption entity list. */
  function ScanMessage(m: Message): (r: Step)
    ensures r.Hit? <==> |m.entities| > 0 && FirstOfKind(m.entities, UrlEntity) < |m.entities|
    ensures r.Hit? ==> var e := m.entities[FirstOfKind(m.entities, UrlEntity)];
                       r.span == Span(TextOf(m), e.offset, e.length)
    ensures r.Link? <==> |m.entities| == 0 && FirstOfKind(m.captionEntities, TextLinkEntity) < |m.captionEntities|
    ensures r.Link? ==> r.url == m.captionEntities[FirstOfKind(m.captionEntities, TextLinkEntity)].url
  {
    if |m.entities| > 0 then
      var i := FirstOfKind(m.entities, UrlEntity);
      if i < |m.entities| then Hit(Span(TextOf(m), m.entities[i].offset, m.entities[i].length)) else Miss
    else
      var i := FirstOfKind(m.captionEntities, TextLinkEntity);
      if i < |m.captionEntities| then Link(m.captionEntities[i].url) else Miss
  }

  predicate Stops(rule: StopRule, st: Option<Span>) {
    st.Some? && (rule == OffsetPresent || st.value.offset != 0)
  }

  /** The outer loop over the messages. */
  function Scan(msgs: seq<Message>, st: Option<Span>, rule: StopRule): (r: ScanEnd)
    ensures r.End? && r.span.None? ==> st.None?
    decreases |msgs|
  {
    if |msgs| == 0 || Stops(rule, st) then End(st)
    else
      match ScanMessage(msgs[0])
      case Link(u) => Done(u)
      case Hit(s) => Scan(msgs[1..], Some(s), rule)
      case Miss => Scan(msgs[1..], st, rule)
  }

  /** Python's `text[a:b]` for `0 <= a <= b`: both ends clamped to the length. */
  function Slice(t: string, a: nat, b: nat): (r: string)
    requires a <= b
    ensures |r| <= |t| && |r| <= b - a
    ensures b <= |t| ==> r == t[a..b]
  {
    var lo := if a < |t| then a else |t|;
    var hi := if b < |t| then b else |t|;
    t[lo..hi]
  }

  function Finish(e: ScanEnd): Result<Option<string>, UrlError> {
    match e
    case Done(u) => Ok(u)
    case End(None) => Ok(None)
    case End(Some(s)) =>
      if s.text.None? then Err(TypeError)
      else Ok(Some(Slice(s.text.value, s.offset, s.offset + s.length)))
  }

  function Thread(m: Message, reply: Option<Message>): (msgs: seq<Message>)
    ensures |msgs| >= 1 && msgs[0] == m
  {
    [m] + (if reply.Some? then [reply.value] else [])
  }

  function UrlWith(m: Message, reply: Option<Message>, rule: StopRule): Result<Option<string>, UrlError> {
    Finish(Scan(Thread(m, reply), None, rule))
  }

  /** What the reply contributes once the scan reaches it, given the span
      recorded so far. */
  function ReplyOutcome(reply: Message, st: Option<Span>): Result<Option<string>, UrlError> {
    match ScanMessage(reply)
    case Link(u) => Ok(u)
    case Hit(s) => Finish(End(Some(s)))
    case Miss => Finish(End(st))
  }

  /** How the scan of a message and its reply ends: a text link in the
      message is returned at once; a span the guard accepts, or the lack of
      a reply, ends the scan there; otherwise the reply decides. */
  lemma ScanThread(m: Message, reply: Option<Message>, rule: StopRule)
    ensures ScanMessage(m).Link? ==> UrlWith(m, reply, rule) == Ok(ScanMessage(m).url)
    ensures ScanMessage(m).Hit? && (Stops(rule, Some(ScanMessage(m).span)) || reply.None?) ==>
              UrlWith(m, reply, rule) == Finish(End(Some(ScanMessage(m).span)))
    ensures ScanMessage(m).Miss? && reply.None? ==> UrlWith(m, reply, rule) == Ok(None)
    ensures ScanMessage(m).Miss? && reply.Some? ==> UrlWith(m, reply, rule) == ReplyOutcome(reply.value, None)
    ensures ScanMessage(m).Hit? && !Stops(rule, Some(ScanMessage(m).span)) && reply.Some? ==>
              UrlWith(m, reply, rule) == ReplyOutcome(reply.value, Some(ScanMessage(m).span))
  {
    var msgs := Thread(m, reply);
    var first := ScanMessage(m);
    var st := if first.Hit? then Some(first.span) else None;
    if !first.Link? {
      assert Scan(msgs, None, rule) == Scan(msgs[1..], st, rule);
    }
    if reply.Some? {
      var rest := msgs[1..];
      assert rest == [reply.value];
      assert rest[1..] == [];
      if !first.Link? && !Stops(rule, st) {
        var second := ScanMessage(reply.value);
        var st' := if second.Hit? then Some(second.span) else st;
        assert !second.Link? ==> Scan(rest, st, rule) == Scan(rest[1..], st', rule) == End(st');
      }
    } else {
      assert msgs[1..] == [];
    }
  }

  /** `url` as written, with the `if offset:` guard: a URL at offset 0 does
      not stop the scan, so a reply's link or URL replaces it. */
  function UrlAsWritten(m: Message, reply: Option<Message>): (r: Result<Option<string>, UrlError>)
    ensures ScanMessage(m).Link? ==> r == Ok(ScanMessage(m).url)
    ensures ScanMessage(m).Hit? && (ScanMessage(m).span.offset != 0 || reply.None?) ==>
              r == Finish(End(Some(ScanMessage(m).span)))
    ensures ScanMessage(m).Hit? && ScanMessage(m).span.offset == 0 && reply.Some? ==>
              && (ScanMessage(reply.value).Hit? ==> r == Finish(End(Some(ScanMessage(reply.value).span))))
              && (ScanMessage(reply.value).Miss? ==> r == Finish(End(Some(ScanMessage(m).span))))
              && (ScanMessage(reply.value).Link? ==> r == Ok(ScanMessage(reply.value).url))
    ensures ScanMessage(m).Miss? && reply.None? ==> r == Ok(None)
    ensures ScanMessage(m).Miss? && reply.Some? ==>
              && (ScanMessage(reply.value).Hit? ==> r == Finish(End(Some(ScanMessage(reply.value).span))))
              && (ScanMessage(reply.value).Miss? ==> r == Ok(None))
              && (ScanMessage(reply.value).Link? ==> r == Ok(ScanMessage(reply.value).url))
  {
    ScanThread(m, reply, OffsetTruthy);
    UrlWith(m, reply, OffsetTruthy)
  }

  /** `url` with the guard `offset is not None`: the first message that has
      a URL entity supplies the link; the reply is read only when the
      message yields nothing. */
  function Url(m: Message, reply: Option<Message>): (r: Result<Option<string>, UrlError>)
    ensures ScanMessage(m).Hit? ==> r == Finish(End(Some(ScanMessage(m).span)))
    ensures ScanMessage(m).Link? ==> r == Ok(ScanMessage(m).url)
    ensures ScanMessage(m).Miss? && reply.None? ==> r == Ok(None)
    ensures ScanMessage(m).Miss? && reply.Some? ==>
              && (ScanMessage(reply.value).Hit? ==> r == Finish(End(Some(ScanMessage(reply.value).span))))
              && (ScanMessage(reply.value).Miss? ==> r == Ok(None))
              && (ScanMessage(reply.value).Link? ==> r == Ok(ScanMessage(reply.value).url))
  {
    ScanThread(m, reply, OffsetPresent);
    UrlWith(m, reply, OffsetPresent)
  }

  /** The slice of the span found, read off the message that holds it. */
  lemma FirstMessageWins(m: Message, reply: Option<Message>)
    requires |m.entities| > 0
    requires FirstOfKind(m.entities, UrlEntity) < |m.entities|
    requires TextOf(m).Some?
    ensures var e := m.entities[FirstOfKind(m.entities, UrlEntity)];
            Url(m, reply) == Ok(Some(Slice(TextOf(m).value, e.offset, e.offset + e.length)))
  {
  }

  /** Caption entities are read only when the message has no entities. */
  lemma CaptionOnlyWithoutEntities(m: Message, reply: Option<Message>, other: seq<Entity>)
    requires |m.entities| > 0
    ensures Url(m.(captionEntities := other), reply) == Url(m, reply)
    ensures UrlAsWritten(m.(captionEntities := other), reply) == UrlAsWritten(m, reply)
  {
  }

  /** Neither message yields anything: the answer is `None`. */
  lemma NothingFound(m: Message, reply: Option<Message>, rule: StopRule)
    requires forall x :: x in Thread(m, reply) ==> ScanMessage(x).Miss?
    ensures UrlWith(m, reply, rule) == Ok(None)
  {
    var msgs := Thread(m, reply);
    assert ScanMessage(msgs[0]).Miss?;
    if reply.Some? {
      assert msgs[1..] == [reply.value];
      assert ScanMessage(reply.value).Miss?;
      assert Scan(msgs[1..][1..], None, rule) == End(None);
    } else {
      assert msgs[1..] == [];
    }
    assert Scan(msgs[1..], None, rule) == End(None);
  }

  /** The guards differ only when the message's own URL sits at offset 0
      and there is a reply to scan. */
  lemma GuardsAgreeOtherwise(m: Message, reply: Option<Message>)
    requires !(ScanMessage(m).Hit? && ScanMessage(m).span.offset == 0 && reply.Some?)
    ensures UrlAsWritten(m, reply) == Url(m, reply)
  {
    var msgs := Thread(m, reply);
    var first := ScanMessage(m);
    var st := if first.Hit? then Some(first.span) else None;
    if reply.Some? {
      var rest := msgs[1..];
      assert rest == [reply.value];
      assert rest[1..] == [];
      if !first.Link? {
        assert Stops(OffsetTruthy, st) == Stops(OffsetPresent, st);
        assert Scan(rest, st, OffsetTruthy) == Scan(rest, st, OffsetPresent);
      }
    } else {
      assert msgs[1..] == [];
      assert Scan(msgs[1..], st, OffsetTruthy) == End(st) == Scan(msgs[1..], st, OffsetPresent);
    }
  }

  const Own: Message := Message(Some("ab"), None, [Entity(UrlEntity, 0, 2, None)], [])
  const Replied: Message := Message(Some("cd"), None, [Entity(UrlEntity, 0, 2, None)], [])

  /** A link at the very start of the message is overridden by the link of
      the message it replies to. */
  lemma OffsetZeroDefersToReply()
    ensures UrlAsWritten(Own, Some(Replied)) == Ok(Some("cd"))
    ensures Url(Own, Some(Replied)) == Ok(Some("ab"))
  {
    assert FirstOfKind(Own.entities, UrlEntity) == 0;
    assert FirstOfKind(Replied.entities, UrlEntity) == 0;
    assert ScanMessage(Own) == Hit(Span(Some("ab"), 0, 2));
    assert ScanMessage(Replied) == Hit(Span(Some("cd"), 0, 2));
    assert Slice("cd", 0, 2) == "cd";
    assert Slice("ab", 0, 2) == "ab";
  }
}
