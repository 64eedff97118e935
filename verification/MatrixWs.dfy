/** One connection of the WebSocket client: commands go out under fresh
    references, replies come back by reference, and every exit path. */
module MatrixWs {
  import opened Text

  const JOIN_REF: string := "1"
  const U64: nat := 0x1_0000_0000_0000_0000

  type Caller = nat

  datatype Failure =
    | InvalidJson | NotSerialized | SendFailed
    | ChannelError | ChannelClosed | ConnectionClosed | WsError

  /** What a caller's reply channel receives. */
  datatype Reply = Answer(response: string) | Failed(why: Failure)

  datatype Body = BadJson | Unserializable | Payload(json: string)

  datatype Frame = NotJson | Frame(event: string, ref: Option<string>, response: string)

  datatype Event =
    | Command(caller: Caller, body: Body, sendOk: bool)
    | SendersGone
    | TextFrame(frame: Frame)
    | OtherFrame
    | CloseOrEnd
    | SocketError
    | Heartbeat(sendOk: bool)

  datatype Exit = SendersDropped | DocFailed | PhxError | PhxClose | Closed | SocketFailed | BeatFailed

  datatype Sent = Doc(ref: string, caller: Caller, json: string) | Beat(ref: string)

  /** `issued` lists the references taken from the counter, `sent` the messages
      that went out, `inbox` what each caller has received. */
  datatype Conn = Conn(counter: nat, pending: map<string, Caller>, inbox: map<Caller, seq<Reply>>,
                       issued: seq<string>, sent: seq<Sent>, exit: Option<Exit>)

  function Received(inbox: map<Caller, seq<Reply>>, c: Caller): seq<Reply>
  {
    if c in inbox then inbox[c] else []
  }

  function Post(inbox: map<Caller, seq<Reply>>, c: Caller, r: Reply): map<Caller, seq<Reply>>
  {
    inbox[c := Received(inbox, c) + [r]]
  }

  /** The same reply to every waiting caller. */
  function PostAll(inbox: map<Caller, seq<Reply>>, callers: set<Caller>, r: Reply): map<Caller, seq<Reply>>
  {
    map c | c in inbox.Keys + callers :: if c in callers then Received(inbox, c) + [r] else inbox[c]
  }

  const OPENED: Conn := Conn(2, map[], map[], [], [], None)

  /** `fetch_add(1)` on the 64-bit counter. */
  function TakeRef(s: Conn): Conn
  {
    s.(counter := (s.counter + 1) % U64, issued := s.issued + [Decimal(s.counter)])
  }

  function CommandStep(s: Conn, caller: Caller, body: Body, sendOk: bool): Conn
  {
    var ref, t := Decimal(s.counter), TakeRef(s);
    match body
    case BadJson => t.(inbox := Post(t.inbox, caller, Failed(InvalidJson)))
    case Unserializable => t.(inbox := Post(t.inbox, caller, Failed(NotSerialized)))
    case Payload(json) =>
      if !sendOk then t.(inbox := Post(t.inbox, caller, Failed(SendFailed)), exit := Some(DocFailed))
      else t.(sent := t.sent + [Doc(ref, caller, json)], pending := t.pending[ref := caller])
  }

  function Drain(s: Conn, why: Failure, exit: Exit): Conn
  {
    s.(inbox := PostAll(s.inbox, s.pending.Values, Failed(why)), pending := map[], exit := Some(exit))
  }

  function FrameStep(s: Conn, frame: Frame): Conn
  {
    if frame.NotJson? then s
    else if frame.event == "phx_reply" then
      if frame.ref.Some? && frame.ref.value in s.pending then
        s.(inbox := Post(s.inbox, s.pending[frame.ref.value], Answer(frame.response)),
           pending := s.pending - {frame.ref.value})
      else s
    else if frame.event == "phx_error" then Drain(s, ChannelError, PhxError)
    else if frame.event == "phx_close" then Drain(s, ChannelClosed, PhxClose)
    else s
  }

  function Step(s: Conn, e: Event): Conn
  {
    match e
    case Command(caller, body, sendOk) => CommandStep(s, caller, body, sendOk)
    case SendersGone => s.(exit := Some(SendersDropped))
    case TextFrame(frame) => FrameStep(s, frame)
    case OtherFrame => s
    case CloseOrEnd => Drain(s, ConnectionClosed, Closed)
    case SocketError => Drain(s, WsError, SocketFailed)
    case Heartbeat(sendOk) =>
      var t := TakeRef(s);
      if sendOk then t.(sent := t.sent + [Beat(Decimal(s.counter))]) else t.(exit := Some(BeatFailed))
  }

  /** A run stops at its exit. */
  function Run(s: Conn, events: seq<Event>): Conn
    decreases |events|
  {
    if events == [] || s.exit.Some? then s else Run(Step(s, events[0]), events[1..])
  }

  // ----- the loop -----

  class Client {
    var s: Conn

    constructor ()
      ensures s == OPENED
    {
      s := OPENED;
    }

    /** `pending.drain()`, in whatever order the map gives. */
    static method SendToAll(start: map<Caller, seq<Reply>>, pending: map<string, Caller>, r: Reply)
      returns (inbox: map<Caller, seq<Reply>>)
      requires Injective(pending)
      ensures inbox == PostAll(start, pending.Values, r)
    {
      inbox := start;
      var left := pending;
      ghost var done: set<Caller> := {};
      PostNone(start, r);
      while left != map[]
        invariant Draining(start, pending, r, inbox, left, done)
        decreases |left|
      {
        var ref :| ref in left;
        DrainTurn(start, pending, r, inbox, left, done, ref);
        inbox := Post(inbox, left[ref], r);
        done := done + {left[ref]};
        left := left - {ref};
      }
      assert done == pending.Values;
    }

    method DrainPending(why: Failure, exit: Exit)
      requires Injective(s.pending)
      modifies this
      ensures s == Drain(old(s), why, exit)
    {
      var inbox := SendToAll(s.inbox, s.pending, Failed(why));
      s := s.(inbox := inbox, pending := map[], exit := Some(exit));
    }

    method OnCommand(caller: Caller, body: Body, sendOk: bool)
      modifies this
      ensures s == CommandStep(old(s), caller, body, sendOk)
    {
      var ref := Decimal(s.counter);
      s := TakeRef(s);
      match body
      case BadJson => s := s.(inbox := Post(s.inbox, caller, Failed(InvalidJson)));
      case Unserializable => s := s.(inbox := Post(s.inbox, caller, Failed(NotSerialized)));
      case Payload(json) =>
        if !sendOk {
          s := s.(inbox := Post(s.inbox, caller, Failed(SendFailed)), exit := Some(DocFailed));
          return;
        }
        s := s.(sent := s.sent + [Doc(ref, caller, json)]);
        s := s.(pending := s.pending[ref := caller]);
    }

    method OnFrame(frame: Frame)
      requires Injective(s.pending)
      modifies this
      ensures s == FrameStep(old(s), frame)
    {
      if frame.NotJson? {
        return;
      }
      if frame.event == "phx_reply" {
        if frame.ref.Some? && frame.ref.value in s.pending {
          var c := s.pending[frame.ref.value];
          s := s.(pending := s.pending - {frame.ref.value});
          s := s.(inbox := Post(s.inbox, c, Answer(frame.response)));
        }
      } else if frame.event == "phx_error" {
        DrainPending(ChannelError, PhxError);
      } else if frame.event == "phx_close" {
        DrainPending(ChannelClosed, PhxClose);
      }
    }

    /** One turn of the select loop. */
    method OnEvent(e: Event)
      requires Injective(s.pending)
      modifies this
      ensures s == Step(old(s), e)
    {
      match e
      case Command(caller, body, sendOk) => OnCommand(caller, body, sendOk);
      case SendersGone => s := s.(exit := Some(SendersDropped));
      case TextFrame(frame) => OnFrame(frame);
      case OtherFrame =>
      case CloseOrEnd => DrainPending(ConnectionClosed, Closed);
      case SocketError => DrainPending(WsError, SocketFailed);
      case Heartbeat(sendOk) =>
        var ref := Decimal(s.counter);
        s := TakeRef(s);
        s := if sendOk then s.(sent := s.sent + [Beat(ref)]) else s.(exit := Some(BeatFailed));
    }

    /** `run_loop` after the join, over the events the select loop takes. */
    method RunLoop(events: seq<Event>)
      requires s == OPENED && DistinctCallers(events) && |events| < U64
      modifies this
      ensures s == Run(OPENED, events)
    {
      var i := 0;
      while i < |events| && s.exit.None?
        invariant 0 <= i <= |events|
        invariant Run(OPENED, events) == Run(s, events[i..])
        invariant Inv(s, events[..i])
      {
        TurnInv(s, events, i);
        OnEvent(events[i]);
        i := i + 1;
      }
    }
  }

  // ----- what every run keeps -----

  ghost predicate Injective(m: map<string, Caller>)
  {
    forall a, b :: a in m && b in m && m[a] == m[b] ==> a == b
  }

  /** Each command brings its own reply channel. */
  predicate DistinctCallers(events: seq<Event>)
  {
    forall i, j :: 0 <= i < j < |events| && events[i].Command? && events[j].Command? ==>
      events[i].caller != events[j].caller
  }

  ghost predicate Accepted(past: seq<Event>, c: Caller)
  {
    exists e :: e in past && e.Command? && e.caller == c
  }

  /** The reference number `k` of a connection. */
  function RefAt(k: nat): string
  {
    Decimal((2 + k) % U64)
  }

  predicate TakesRef(e: Event)
  {
    e.Command? || e.Heartbeat?
  }

  /** How many references the events take from the counter. */
  function Taken(past: seq<Event>): (n: nat)
    ensures n <= |past|
  {
    if past == [] then 0
    else Taken(past[..|past| - 1]) + if TakesRef(past[|past| - 1]) then 1 else 0
  }

  predicate IsSent(e: Event)
  {
    e.Command? && e.body.Payload? && e.sendOk
  }

  predicate IsReply(e: Event, ref: string)
  {
    e.TextFrame? && e.frame.Frame? && e.frame.event == "phx_reply" && e.frame.ref == Some(ref)
  }

  /** Event `i` sent the caller's command under `ref`, and no reply to `ref` has come since. */
  ghost predicate OpenSince(past: seq<Event>, i: nat, ref: string, c: Caller)
  {
    && i < |past| && IsSent(past[i]) && past[i].caller == c && ref == RefAt(Taken(past[..i]))
    && forall m :: i < m < |past| ==> !IsReply(past[m], ref)
  }

  ghost predicate Waiting(past: seq<Event>, ref: string, c: Caller)
  {
    exists i :: OpenSince(past, i, ref, c)
  }

  /** Event `k` is the first reply to the reference under which the caller's command
      had gone out by then, and carries this response. */
  ghost predicate AnsweredAt(past: seq<Event>, k: nat, ref: string, c: Caller, response: string)
  {
    k < |past| && Waiting(past[..k], ref, c) && IsReply(past[k], ref) && past[k].frame.response == response
  }

  ghost predicate Routed(past: seq<Event>, c: Caller, response: string)
  {
    exists k, ref :: AnsweredAt(past, k, ref, c, response)
  }

  ghost predicate DocSent(s: Conn, ref: string, c: Caller)
  {
    exists json :: Doc(ref, c, json) in s.sent
  }

  /** References: numbered from 2, and everything pending or sent carries an issued one. */
  ghost predicate RefsInv(s: Conn)
  {
    && s.counter == (2 + |s.issued|) % U64
    && (forall k :: 0 <= k < |s.issued| ==> s.issued[k] == RefAt(k))
    && (forall ref :: ref in s.pending ==> ref in s.issued && DocSent(s, ref, s.pending[ref]))
    && (forall m :: m in s.sent ==> m.ref in s.issued)
    && Injective(s.pending)
  }

  /** Conservation: an accepted caller is waiting under one reference, or has
      received exactly one reply; nobody else has received anything. */
  ghost predicate Conserved(s: Conn, past: seq<Event>)
  {
    && (forall c :: Accepted(past, c) && c !in s.pending.Values ==> |Received(s.inbox, c)| == 1)
    && (forall c :: c in s.pending.Values ==> Accepted(past, c) && Received(s.inbox, c) == [])
    && (forall c :: !Accepted(past, c) ==> Received(s.inbox, c) == [])
  }

  predicate Pends(s: Conn, ref: string, c: Caller)
  {
    ref in s.pending && s.pending[ref] == c
  }

  predicate Drains(exit: Exit)
  {
    exit == PhxError || exit == PhxClose || exit == Closed || exit == SocketFailed
  }

  predicate Drained(s: Conn)
  {
    s.exit.Some? && Drains(s.exit.value)
  }

  /** The pending map holds exactly the callers whose command is open in the log,
      until an exit that drains it. */
  ghost predicate PendingIsOpen(s: Conn, past: seq<Event>)
  {
    && (forall ref, c :: Pends(s, ref, c) ==> Waiting(past, ref, c))
    && (if Drained(s) then s.pending == map[] else forall ref, c :: Waiting(past, ref, c) ==> Pends(s, ref, c))
  }

  /** A caller has an answer exactly when its command had gone out and this is the
      response of the first reply to its reference after that. */
  ghost predicate AllRouted(s: Conn, past: seq<Event>)
  {
    forall c, response :: Received(s.inbox, c) == [Answer(response)] <==> Routed(past, c, response)
  }

  ghost predicate Inv(s: Conn, past: seq<Event>)
  {
    |s.issued| == Taken(past) && RefsInv(s) && Conserved(s, past) && PendingIsOpen(s, past) && AllRouted(s, past)
  }

  lemma TakenNext(past: seq<Event>, e: Event)
    ensures Taken(past + [e]) == Taken(past) + if TakesRef(e) then 1 else 0
  {
    assert (past + [e])[..|past|] == past;
  }

  lemma OpenNext(past: seq<Event>, e: Event, i: nat, ref: string, c: Caller)
    ensures OpenSince(past + [e], i, ref, c) <==>
              if i == |past| then IsSent(e) && e.caller == c && ref == RefAt(Taken(past))
              else OpenSince(past, i, ref, c) && !IsReply(e, ref)
  {
    var next := past + [e];
    if i < |past| {
      assert next[..i] == past[..i] && next[|past|] == e;
      assert forall m :: 0 <= m < |past| ==> next[m] == past[m];
    } else {
      assert i == |past| ==> next[..i] == past;
    }
  }

  /** A command goes out, or stays open until a reply to its reference comes. */
  lemma WaitingNext(past: seq<Event>, e: Event, ref: string, c: Caller)
    ensures Waiting(past + [e], ref, c) <==>
              (Waiting(past, ref, c) && !IsReply(e, ref)) || (IsSent(e) && e.caller == c && ref == RefAt(Taken(past)))
  {
    forall i: nat
      ensures OpenSince(past + [e], i, ref, c) <==>
                if i == |past| then IsSent(e) && e.caller == c && ref == RefAt(Taken(past))
                else OpenSince(past, i, ref, c) && !IsReply(e, ref)
    {
      OpenNext(past, e, i, ref, c);
    }
    assert OpenSince(past + [e], |past|, ref, c) <==> IsSent(e) && e.caller == c && ref == RefAt(Taken(past));
  }

  lemma AnsweredNext(past: seq<Event>, e: Event, k: nat, ref: string, c: Caller, response: string)
    ensures AnsweredAt(past + [e], k, ref, c, response) <==>
              if k == |past| then Waiting(past, ref, c) && IsReply(e, ref) && e.frame.response == response
              else AnsweredAt(past, k, ref, c, response)
  {
    if k < |past| {
      assert (past + [e])[..k] == past[..k];
    } else {
      assert k == |past| ==> (past + [e])[..k] == past;
    }
  }

  lemma RoutedNext(past: seq<Event>, e: Event, c: Caller, response: string)
    ensures Routed(past + [e], c, response) <==>
              Routed(past, c, response)
              || exists ref :: Waiting(past, ref, c) && IsReply(e, ref) && e.frame.response == response
  {
    forall k: nat, ref: string
      ensures AnsweredAt(past + [e], k, ref, c, response) <==>
                if k == |past| then Waiting(past, ref, c) && IsReply(e, ref) && e.frame.response == response
                else AnsweredAt(past, k, ref, c, response)
    {
      AnsweredNext(past, e, k, ref, c, response);
    }
    if ref :| Waiting(past, ref, c) && IsReply(e, ref) && e.frame.response == response {
      assert AnsweredAt(past + [e], |past|, ref, c, response);
    }
    if Routed(past, c, response) {
      var k, ref :| AnsweredAt(past, k, ref, c, response);
      assert AnsweredAt(past + [e], k, ref, c, response);
    }
  }

  lemma ModStep(n: nat)
    ensures ((2 + n) % U64 + 1) % U64 == (2 + n + 1) % U64
  {
  }

  /** References are fresh and never the join reference, exactly as long as fewer
      than 2^64 are taken. */
  lemma RefsFreshIff(n: nat)
    ensures n < U64 <==>
              && (forall i, j :: 0 <= i < j < n ==> RefAt(i) != RefAt(j))
              && (forall i :: 0 <= i < n ==> RefAt(i) != JOIN_REF)
  {
    if n < U64 {
      forall i, j | 0 <= i < j < n ensures RefAt(i) != RefAt(j) {
        if RefAt(i) == RefAt(j) { DecimalInjective((2 + i) % U64, (2 + j) % U64); }
      }
      forall i | 0 <= i < n ensures RefAt(i) != JOIN_REF {
        assert Decimal(1) == JOIN_REF;
        if RefAt(i) == JOIN_REF { DecimalInjective((2 + i) % U64, 1); }
      }
    } else {
      assert RefAt(U64 - 1) == Decimal(1) == JOIN_REF;
    }
  }

  lemma FreshRef(s: Conn)
    requires RefsInv(s) && |s.issued| + 1 < U64
    ensures Decimal(s.counter) == RefAt(|s.issued|) && Decimal(s.counter) !in s.issued
    ensures Decimal(s.counter) !in s.pending && Decimal(s.counter) != JOIN_REF
  {
    RefsFreshIff(|s.issued| + 1);
    forall k | 0 <= k < |s.issued| ensures s.issued[k] != Decimal(s.counter) {
      assert RefAt(k) != RefAt(|s.issued|);
    }
  }

  lemma TakeRefInv(s: Conn)
    requires RefsInv(s)
    ensures RefsInv(TakeRef(s))
  {
    ModStep(|s.issued|);
    var t := TakeRef(s);
    forall ref | ref in t.pending ensures DocSent(t, ref, t.pending[ref]) {
      assert DocSent(s, ref, s.pending[ref]);
    }
  }

  lemma AcceptedNext(past: seq<Event>, e: Event, c: Caller)
    ensures Accepted(past + [e], c) <==> Accepted(past, c) || (e.Command? && e.caller == c)
  {
    if Accepted(past, c) {
      var f :| f in past && f.Command? && f.caller == c;
      assert f in past + [e];
    }
    assert e in past + [e];
  }

  lemma NewCaller(past: seq<Event>, e: Event)
    requires DistinctCallers(past + [e]) && e.Command?
    ensures !Accepted(past, e.caller)
  {
    forall f | f in past && f.Command? ensures f.caller != e.caller {
      var i :| 0 <= i < |past| && past[i] == f;
      assert (past + [e])[i] == f && (past + [e])[|past|] == e;
    }
  }

  lemma ValuesWithout(m: map<string, Caller>, k: string)
    requires Injective(m) && k in m
    ensures (m - {k}).Values == m.Values - {m[k]}
  {
    var rest := m - {k};
    forall c | c in m.Values && c != m[k] ensures c in rest.Values {
      var j :| j in m && m[j] == c;
      assert j in rest && rest[j] == c;
    }
    forall c | c in rest.Values ensures c in m.Values && c != m[k] {
      var j :| j in rest && rest[j] == c;
      assert m[j] == c;
    }
  }

  lemma PostOneMore(inbox: map<Caller, seq<Reply>>, done: set<Caller>, c: Caller, r: Reply)
    requires c !in done
    ensures Post(PostAll(inbox, done, r), c, r) == PostAll(inbox, done + {c}, r)
  {
  }

  lemma PostNone(inbox: map<Caller, seq<Reply>>, r: Reply)
    ensures PostAll(inbox, {}, r) == inbox
  {
  }

  /** Part of the pending callers (`done`) have been told, the rest is `left`. */
  ghost predicate Draining(start: map<Caller, seq<Reply>>, pending: map<string, Caller>, r: Reply,
                           inbox: map<Caller, seq<Reply>>, left: map<string, Caller>, done: set<Caller>)
  {
    && Injective(left) && inbox == PostAll(start, done, r)
    && done !! left.Values && done + left.Values == pending.Values
  }

  lemma DrainTurn(start: map<Caller, seq<Reply>>, pending: map<string, Caller>, r: Reply,
                  inbox: map<Caller, seq<Reply>>, left: map<string, Caller>, done: set<Caller>, ref: string)
    requires Draining(start, pending, r, inbox, left, done) && ref in left
    ensures Draining(start, pending, r, Post(inbox, left[ref], r), left - {ref}, done + {left[ref]})
  {
    assert left[ref] in left.Values;
    ValuesWithout(left, ref);
    PostOneMore(start, done, left[ref], r);
    assert (done + {left[ref]}) + (left - {ref}).Values == pending.Values;
  }

  ghost predicate SameAnswers(s: Conn, t: Conn)
  {
    forall c, response :: Received(t.inbox, c) == [Answer(response)] <==> Received(s.inbox, c) == [Answer(response)]
  }

  predicate Unanswering(s: Conn, e: Event)
  {
    forall ref :: ref in s.pending ==> !IsReply(e, ref)
  }

  /** Whatever is no reply to a pending reference answers nobody. */
  lemma NothingRouted(s: Conn, t: Conn, past: seq<Event>, e: Event)
    requires s.exit.None? && PendingIsOpen(s, past) && AllRouted(s, past) && Unanswering(s, e) && SameAnswers(s, t)
    ensures AllRouted(t, past + [e])
  {
    forall c, response ensures Received(t.inbox, c) == [Answer(response)] <==> Routed(past + [e], c, response) {
      RoutedNext(past, e, c, response);
      assert forall ref :: Waiting(past, ref, c) && IsReply(e, ref) ==> Pends(s, ref, c);
    }
  }

  /** The open commands are those pending, when neither changes. */
  lemma PendingKept(s: Conn, t: Conn, past: seq<Event>, e: Event)
    requires s.exit.None? && PendingIsOpen(s, past) && Unanswering(s, e) && !IsSent(e)
    requires t.pending == s.pending && !Drained(t)
    ensures PendingIsOpen(t, past + [e])
  {
    forall ref, c ensures Waiting(past + [e], ref, c) <==> Pends(t, ref, c) {
      WaitingNext(past, e, ref, c);
      assert Pends(s, ref, c) <==> Pends(t, ref, c);
    }
  }

  lemma QuietStep(s: Conn, t: Conn, past: seq<Event>, e: Event)
    requires Inv(s, past) && s.exit.None? && RefsInv(t) && !e.Command? && Unanswering(s, e)
    requires t.pending == s.pending && t.inbox == s.inbox && !Drained(t)
    requires |t.issued| == |s.issued| + if TakesRef(e) then 1 else 0
    ensures Inv(t, past + [e])
  {
    forall c ensures Accepted(past + [e], c) <==> Accepted(past, c) { AcceptedNext(past, e, c); }
    TakenNext(past, e);
    NothingRouted(s, t, past, e);
    PendingKept(s, t, past, e);
  }

  lemma RefusedConserved(s: Conn, past: seq<Event>, e: Event, why: Failure, t: Conn)
    requires Conserved(s, past) && e.Command? && !Accepted(past, e.caller)
    requires t.pending == s.pending && t.inbox == Post(s.inbox, e.caller, Failed(why))
    ensures Conserved(t, past + [e]) && SameAnswers(s, t)
  {
    forall c ensures Accepted(past + [e], c) <==> Accepted(past, c) || c == e.caller { AcceptedNext(past, e, c); }
    forall c ensures Received(t.inbox, c) == if c == e.caller then [Failed(why)] else Received(s.inbox, c) {
    }
  }

  /** A command that is answered at once: its caller gets that one reply. */
  lemma RefusedCommand(s: Conn, past: seq<Event>, e: Event, why: Failure, t: Conn)
    requires Inv(s, past) && s.exit.None? && e.Command? && !IsSent(e) && !Accepted(past, e.caller)
    requires RefsInv(t) && t.pending == s.pending && |t.issued| == |s.issued| + 1 && !Drained(t)
    requires t.inbox == Post(s.inbox, e.caller, Failed(why))
    ensures Inv(t, past + [e])
  {
    TakenNext(past, e);
    RefusedConserved(s, past, e, why, t);
    NothingRouted(s, t, past, e);
    PendingKept(s, t, past, e);
  }

  lemma ValuesWith(m: map<string, Caller>, k: string, c: Caller)
    requires Injective(m) && k !in m && c !in m.Values
    ensures Injective(m[k := c]) && m[k := c].Values == m.Values + {c}
  {
    var more := m[k := c];
    assert forall a :: a in m ==> m[a] in m.Values;
    forall x | x in m.Values ensures x in more.Values {
      var a :| a in m && m[a] == x;
      assert a in more && more[a] == x;
    }
    assert more[k] == c;
  }

  lemma SentRefs(s: Conn, past: seq<Event>, e: Event)
    requires Inv(s, past) && |s.issued| + 1 < U64 && IsSent(e) && !Accepted(past, e.caller)
    ensures RefsInv(Step(s, e)) && Step(s, e).pending.Values == s.pending.Values + {e.caller}
  {
    var ref, t := Decimal(s.counter), Step(s, e);
    FreshRef(s);
    TakeRefInv(s);
    assert Doc(ref, e.caller, e.body.json) in t.sent;
    assert t.issued[|s.issued|] == ref;
    ValuesWith(s.pending, ref, e.caller);
    forall r | r in t.pending ensures DocSent(t, r, t.pending[r]) {
      if r != ref {
        assert DocSent(s, r, s.pending[r]);
        var json :| Doc(r, s.pending[r], json) in s.sent;
        assert Doc(r, s.pending[r], json) in t.sent;
      }
    }
  }

  lemma SentOpen(s: Conn, past: seq<Event>, e: Event)
    requires Inv(s, past) && s.exit.None? && |s.issued| + 1 < U64 && IsSent(e)
    ensures PendingIsOpen(Step(s, e), past + [e])
  {
    var ref, t := Decimal(s.counter), Step(s, e);
    FreshRef(s);
    assert ref == RefAt(Taken(past));
    forall r, c ensures Waiting(past + [e], r, c) <==> Pends(t, r, c) {
      WaitingNext(past, e, r, c);
      assert Pends(t, r, c) <==> Pends(s, r, c) || (r == ref && c == e.caller);
    }
  }

  lemma SentCommand(s: Conn, past: seq<Event>, e: Event)
    requires Inv(s, past) && s.exit.None? && |s.issued| + 1 < U64 && IsSent(e) && !Accepted(past, e.caller)
    ensures Inv(Step(s, e), past + [e])
  {
    SentRefs(s, past, e);
    TakenNext(past, e);
    SentOpen(s, past, e);
    NothingRouted(s, Step(s, e), past, e);
    forall c ensures Accepted(past + [e], c) <==> Accepted(past, c) || c == e.caller { AcceptedNext(past, e, c); }
  }

  lemma ReceivedAfterDrain(s: Conn, why: Failure, exit: Exit, c: Caller)
    ensures Received(Drain(s, why, exit).inbox, c) ==
              if c in s.pending.Values then Received(s.inbox, c) + [Failed(why)] else Received(s.inbox, c)
  {
  }

  lemma DrainConserved(s: Conn, past: seq<Event>, e: Event, why: Failure, exit: Exit)
    requires Inv(s, past) && !e.Command?
    ensures RefsInv(Drain(s, why, exit)) && Conserved(Drain(s, why, exit), past + [e])
  {
    forall c ensures Accepted(past + [e], c) <==> Accepted(past, c) { AcceptedNext(past, e, c); }
    forall c { ReceivedAfterDrain(s, why, exit, c); }
  }

  lemma DrainInv(s: Conn, past: seq<Event>, e: Event, why: Failure, exit: Exit)
    requires Inv(s, past) && s.exit.None? && !TakesRef(e) && Unanswering(s, e) && Drains(exit)
    ensures Inv(Drain(s, why, exit), past + [e])
  {
    var t := Drain(s, why, exit);
    DrainConserved(s, past, e, why, exit);
    TakenNext(past, e);
    forall c ensures Received(t.inbox, c) ==
                       if c in s.pending.Values then [Failed(why)] else Received(s.inbox, c) {
      ReceivedAfterDrain(s, why, exit, c);
    }
    NothingRouted(s, t, past, e);
  }

  predicate IsReplyTo(s: Conn, e: Event)
  {
    && e.TextFrame? && e.frame.Frame? && e.frame.event == "phx_reply"
    && e.frame.ref.Some? && e.frame.ref.value in s.pending
  }

  lemma ReplyRefs(s: Conn, e: Event)
    requires RefsInv(s) && IsReplyTo(s, e)
    ensures RefsInv(Step(s, e))
  {
    var t := Step(s, e);
    forall r | r in t.pending ensures DocSent(t, r, t.pending[r]) {
      assert DocSent(s, r, s.pending[r]);
    }
  }

  lemma ReplyConserved(s: Conn, past: seq<Event>, e: Event)
    requires Injective(s.pending) && Conserved(s, past) && IsReplyTo(s, e)
    ensures Conserved(Step(s, e), past + [e])
  {
    var ref, t := e.frame.ref.value, Step(s, e);
    ValuesWithout(s.pending, ref);
    assert s.pending[ref] in s.pending.Values;
    forall c ensures Accepted(past + [e], c) <==> Accepted(past, c) { AcceptedNext(past, e, c); }
    forall c ensures Received(t.inbox, c) ==
                       if c == s.pending[ref] then [Answer(e.frame.response)] else Received(s.inbox, c) {
    }
  }

  lemma ReplyRouted(s: Conn, past: seq<Event>, e: Event)
    requires Inv(s, past) && s.exit.None? && IsReplyTo(s, e)
    ensures AllRouted(Step(s, e), past + [e])
  {
    var ref, t := e.frame.ref.value, Step(s, e);
    var who := s.pending[ref];
    assert Pends(s, ref, who) && IsReply(e, ref);
    assert who in s.pending.Values;
    forall c, response ensures Received(t.inbox, c) == [Answer(response)] <==> Routed(past + [e], c, response) {
      RoutedNext(past, e, c, response);
      if c == who {
        assert Received(t.inbox, c) == [Answer(e.frame.response)];
        assert Received(s.inbox, c) == [] && !Routed(past, c, response);
        assert Waiting(past, ref, c) && IsReply(e, ref);
      } else {
        assert Received(t.inbox, c) == Received(s.inbox, c);
        assert forall r :: IsReply(e, r) && Waiting(past, r, c) ==> r == ref && Pends(s, r, c);
      }
    }
  }

  lemma ReplyOpen(s: Conn, past: seq<Event>, e: Event)
    requires Inv(s, past) && s.exit.None? && IsReplyTo(s, e)
    ensures PendingIsOpen(Step(s, e), past + [e])
  {
    var ref, t := e.frame.ref.value, Step(s, e);
    forall r, c ensures Waiting(past + [e], r, c) <==> Pends(t, r, c) {
      WaitingNext(past, e, r, c);
      assert IsReply(e, r) <==> r == ref;
      assert Pends(t, r, c) <==> Pends(s, r, c) && r != ref;
    }
  }

  lemma ReplyInv(s: Conn, past: seq<Event>, e: Event)
    requires Inv(s, past) && s.exit.None? && IsReplyTo(s, e)
    ensures Inv(Step(s, e), past + [e])
  {
    TakenNext(past, e);
    ReplyRefs(s, e);
    ReplyConserved(s, past, e);
    ReplyRouted(s, past, e);
    ReplyOpen(s, past, e);
  }

  lemma RefusedStep(s: Conn, e: Event)
    requires RefsInv(s) && s.exit.None? && e.Command? && !IsSent(e)
    ensures var t := Step(s, e);
            && RefsInv(t) && t.pending == s.pending && |t.issued| == |s.issued| + 1 && !Drained(t)
            && t.inbox == Post(s.inbox, e.caller, Failed(Refusal(e.body)))
  {
    TakeRefInv(s);
    SameRefs(TakeRef(s), Step(s, e));
  }

  lemma SameRefs(s: Conn, t: Conn)
    requires RefsInv(s) && t.counter == s.counter && t.issued == s.issued && t.pending == s.pending && t.sent == s.sent
    ensures RefsInv(t)
  {
    forall ref | ref in t.pending ensures DocSent(t, ref, t.pending[ref]) {
      assert DocSent(s, ref, s.pending[ref]);
    }
  }

  lemma CommandInv(s: Conn, past: seq<Event>, e: Event)
    requires Inv(s, past) && s.exit.None? && |past| + 1 < U64 && DistinctCallers(past + [e]) && e.Command?
    ensures Inv(Step(s, e), past + [e])
  {
    NewCaller(past, e);
    if IsSent(e) {
      SentCommand(s, past, e);
    } else {
      RefusedStep(s, e);
      RefusedCommand(s, past, e, Refusal(e.body), Step(s, e));
    }
  }

  lemma FrameInv(s: Conn, past: seq<Event>, e: Event)
    requires Inv(s, past) && s.exit.None? && e.TextFrame?
    ensures Inv(Step(s, e), past + [e])
  {
    var frame := e.frame;
    if IsReplyTo(s, e) {
      ReplyInv(s, past, e);
    } else if frame.Frame? && frame.event == "phx_error" {
      DrainInv(s, past, e, ChannelError, PhxError);
    } else if frame.Frame? && frame.event == "phx_close" {
      DrainInv(s, past, e, ChannelClosed, PhxClose);
    } else {
      assert Step(s, e) == s;
      QuietStep(s, s, past, e);
    }
  }

  lemma HeartbeatInv(s: Conn, past: seq<Event>, e: Event)
    requires Inv(s, past) && s.exit.None? && e.Heartbeat?
    ensures Inv(Step(s, e), past + [e])
  {
    TakeRefInv(s);
    var t := Step(s, e);
    assert t.issued[|s.issued|] == Decimal(s.counter);
    assert RefsInv(t) by {
      forall ref | ref in t.pending ensures DocSent(t, ref, t.pending[ref]) {
        assert DocSent(s, ref, s.pending[ref]);
        var json :| Doc(ref, s.pending[ref], json) in s.sent;
        assert Doc(ref, s.pending[ref], json) in t.sent;
      }
    }
    QuietStep(s, t, past, e);
  }

  /** Every step of the select loop keeps the invariant. */
  lemma StepInv(s: Conn, past: seq<Event>, e: Event)
    requires Inv(s, past) && s.exit.None? && |past| + 1 < U64 && DistinctCallers(past + [e])
    ensures Inv(Step(s, e), past + [e])
  {
    match e
    case Command(caller, body, sendOk) => CommandInv(s, past, e);
    case TextFrame(frame) => FrameInv(s, past, e);
    case CloseOrEnd => DrainInv(s, past, e, ConnectionClosed, Closed);
    case SocketError => DrainInv(s, past, e, WsError, SocketFailed);
    case Heartbeat(sendOk) => HeartbeatInv(s, past, e);
    case SendersGone => QuietStep(s, Step(s, e), past, e);
    case OtherFrame => QuietStep(s, Step(s, e), past, e);
  }

  // ----- what goes out, why it stops, and who is told what -----

  /** What one event sends, under the next reference. */
  function SentBy(ref: string, e: Event): seq<Sent>
  {
    if IsSent(e) then [Doc(ref, e.caller, e.body.json)]
    else if e.Heartbeat? && e.sendOk then [Beat(ref)]
    else []
  }

  /** What the events send, in their order. */
  function SentOf(past: seq<Event>): seq<Sent>
  {
    if past == [] then []
    else
      var before := past[..|past| - 1];
      SentOf(before) + SentBy(RefAt(Taken(before)), past[|past| - 1])
  }

  lemma SentNext(past: seq<Event>, e: Event)
    ensures SentOf(past + [e]) == SentOf(past) + SentBy(RefAt(Taken(past)), e)
  {
    assert (past + [e])[..|past|] == past;
  }

  ghost predicate SentAt(past: seq<Event>, i: nat, m: Sent)
  {
    i < |past| && m in SentBy(RefAt(Taken(past[..i])), past[i])
  }

  lemma SentAtNext(past: seq<Event>, e: Event, i: nat, m: Sent)
    ensures SentAt(past + [e], i, m) <==>
              if i == |past| then m in SentBy(RefAt(Taken(past)), e) else SentAt(past, i, m)
  {
    var next := past + [e];
    if i < |past| {
      assert next[..i] == past[..i];
    } else {
      assert i == |past| ==> next[..i] == past;
    }
  }

  ghost predicate SentSome(past: seq<Event>, m: Sent)
  {
    exists i: nat :: SentAt(past, i, m)
  }

  lemma SentSomeNext(past: seq<Event>, e: Event, m: Sent)
    ensures SentSome(past + [e], m) <==> SentSome(past, m) || m in SentBy(RefAt(Taken(past)), e)
  {
    forall i: nat
      ensures SentAt(past + [e], i, m) <==>
                if i == |past| then m in SentBy(RefAt(Taken(past)), e) else SentAt(past, i, m)
    {
      SentAtNext(past, e, i, m);
    }
    assert SentAt(past + [e], |past|, m) <==> m in SentBy(RefAt(Taken(past)), e);
    if SentSome(past, m) {
      var i: nat :| SentAt(past, i, m);
      assert SentAt(past + [e], i, m);
    }
  }

  /** A message went out exactly when some event sent it, with that event's own
      reference, caller and content. */
  lemma {:induction false} SentOfIff(past: seq<Event>, m: Sent)
    ensures m in SentOf(past) <==> SentSome(past, m)
  {
    if past != [] {
      var before, e := past[..|past| - 1], past[|past| - 1];
      assert before + [e] == past;
      SentOfIff(before, m);
      SentNext(before, e);
      SentSomeNext(before, e, m);
    }
  }

  /** The exit that an event is, whatever came before. */
  function StopOf(e: Event): Option<Exit>
  {
    match e
    case Command(_, body, sendOk) => if body.Payload? && !sendOk then Some(DocFailed) else None
    case SendersGone => Some(SendersDropped)
    case TextFrame(frame) =>
      if frame.Frame? && frame.event == "phx_error" then Some(PhxError)
      else if frame.Frame? && frame.event == "phx_close" then Some(PhxClose)
      else None
    case OtherFrame => None
    case CloseOrEnd => Some(Closed)
    case SocketError => Some(SocketFailed)
    case Heartbeat(sendOk) => if sendOk then None else Some(BeatFailed)
  }

  /** What an event tells the callers that are waiting. */
  function DrainReason(e: Event): Option<Failure>
  {
    match StopOf(e)
    case Some(PhxError) => Some(ChannelError)
    case Some(PhxClose) => Some(ChannelClosed)
    case Some(Closed) => Some(ConnectionClosed)
    case Some(SocketFailed) => Some(WsError)
    case _ => None
  }

  function Refusal(body: Body): Failure
  {
    match body
    case BadJson => InvalidJson
    case Unserializable => NotSerialized
    case Payload(_) => SendFailed
  }

  lemma StepSends(s: Conn, e: Event)
    ensures Step(s, e).sent == s.sent + SentBy(Decimal(s.counter), e)
  {
  }

  lemma StepSent(s: Conn, past: seq<Event>, e: Event)
    requires RefsInv(s) && |s.issued| == Taken(past) && s.sent == SentOf(past)
    ensures Step(s, e).sent == SentOf(past + [e])
  {
    SentNext(past, e);
    StepSends(s, e);
    assert Decimal(s.counter) == RefAt(Taken(past));
  }

  lemma StepExit(s: Conn, e: Event)
    requires s.exit.None?
    ensures Step(s, e).exit == StopOf(e)
  {
  }

  lemma CommandDelivers(s: Conn, e: Event, c: Caller)
    requires e.Command?
    ensures Received(Step(s, e).inbox, c) == Received(s.inbox, c) +
              if !IsSent(e) && c == e.caller then [Failed(Refusal(e.body))] else []
  {
    assert Received(s.inbox, c) + [] == Received(s.inbox, c);
  }

  lemma DrainDelivers(s: Conn, e: Event, c: Caller)
    requires DrainReason(e).Some?
    ensures Received(Step(s, e).inbox, c) == Received(s.inbox, c) +
              if c in s.pending.Values then [Failed(DrainReason(e).value)] else []
  {
    assert Received(s.inbox, c) + [] == Received(s.inbox, c);
  }

  lemma OtherDelivers(s: Conn, e: Event, c: Caller)
    requires !e.Command? && DrainReason(e).None?
    ensures Received(Step(s, e).inbox, c) == Received(s.inbox, c) +
              if IsReplyTo(s, e) && c == s.pending[e.frame.ref.value] then [Answer(e.frame.response)] else []
  {
    assert Received(s.inbox, c) + [] == Received(s.inbox, c);
  }

  /** What one event delivers to one caller. */
  lemma ReceivedNext(s: Conn, e: Event, c: Caller)
    ensures Received(Step(s, e).inbox, c) == Received(s.inbox, c) +
              if e.Command? then (if !IsSent(e) && c == e.caller then [Failed(Refusal(e.body))] else [])
              else if DrainReason(e).Some? then
                (if c in s.pending.Values then [Failed(DrainReason(e).value)] else [])
              else if IsReplyTo(s, e) && c == s.pending[e.frame.ref.value] then [Answer(e.frame.response)]
              else []
  {
    if e.Command? {
      CommandDelivers(s, e, c);
    } else if DrainReason(e).Some? {
      DrainDelivers(s, e, c);
    } else {
      OtherDelivers(s, e, c);
    }
  }

  ghost predicate RefusedFor(past: seq<Event>, c: Caller, why: Failure)
  {
    exists e :: e in past && e.Command? && e.caller == c && !IsSent(e) && why == Refusal(e.body)
  }

  ghost predicate DrainedFor(past: seq<Event>, c: Caller, why: Failure)
  {
    && past != [] && DrainReason(past[|past| - 1]) == Some(why)
    && exists ref :: Waiting(past, ref, c)
  }

  /** A caller has a failure exactly when its own command was refused for that reason,
      or it was still waiting at an event that drains for that reason. */
  ghost predicate AllFailed(s: Conn, past: seq<Event>)
  {
    forall c, why :: Received(s.inbox, c) == [Failed(why)] <==> RefusedFor(past, c, why) || DrainedFor(past, c, why)
  }

  function LastStop(past: seq<Event>): Option<Exit>
  {
    if past == [] then None else StopOf(past[|past| - 1])
  }

  ghost predicate LogInv(s: Conn, past: seq<Event>)
  {
    s.sent == SentOf(past) && s.exit == LastStop(past) && AllFailed(s, past)
  }

  lemma RefusedNext(past: seq<Event>, e: Event, c: Caller, why: Failure)
    ensures RefusedFor(past + [e], c, why) <==>
              RefusedFor(past, c, why) || (e.Command? && e.caller == c && !IsSent(e) && why == Refusal(e.body))
  {
    if RefusedFor(past, c, why) {
      var f :| f in past && f.Command? && f.caller == c && !IsSent(f) && why == Refusal(f.body);
      assert f in past + [e];
    }
    assert e in past + [e];
  }

  lemma DrainedNext(s: Conn, past: seq<Event>, e: Event, c: Caller, why: Failure)
    requires PendingIsOpen(s, past) && s.exit.None?
    ensures DrainedFor(past + [e], c, why) <==> DrainReason(e) == Some(why) && c in s.pending.Values
  {
    assert (past + [e])[|past|] == e;
    if DrainReason(e) == Some(why) {
      forall ref ensures Waiting(past + [e], ref, c) <==> Pends(s, ref, c) {
        WaitingNext(past, e, ref, c);
      }
      if c in s.pending.Values {
        var ref :| ref in s.pending && s.pending[ref] == c;
        assert Pends(s, ref, c);
      }
    }
  }

  lemma NotYetDrained(past: seq<Event>, c: Caller, why: Failure)
    requires LastStop(past).None?
    ensures !DrainedFor(past, c, why)
  {
  }

  /** A caller who is waiting, or has not come yet, has neither a reply nor a reason for one. */
  lemma NoReplyYet(s: Conn, past: seq<Event>, c: Caller, why: Failure)
    requires Conserved(s, past) && AllFailed(s, past) && (c in s.pending.Values || !Accepted(past, c))
    ensures Received(s.inbox, c) == [] && !RefusedFor(past, c, why)
  {
  }

  lemma FailedSoFar(s: Conn, past: seq<Event>, c: Caller, why: Failure)
    requires LogInv(s, past) && s.exit.None?
    ensures Received(s.inbox, c) == [Failed(why)] <==> RefusedFor(past, c, why)
  {
    NotYetDrained(past, c, why);
    assert Received(s.inbox, c) == [Failed(why)] <==> RefusedFor(past, c, why) || DrainedFor(past, c, why);
  }

  lemma CommandFailed(s: Conn, past: seq<Event>, e: Event, c: Caller, why: Failure)
    requires Inv(s, past) && LogInv(s, past) && s.exit.None? && DistinctCallers(past + [e]) && e.Command?
    ensures Received(Step(s, e).inbox, c) == [Failed(why)] <==> RefusedFor(past + [e], c, why)
  {
    ReceivedNext(s, e, c);
    RefusedNext(past, e, c, why);
    FailedSoFar(s, past, c, why);
    var before := Received(s.inbox, c);
    assert before + [] == before;
    if e.caller == c {
      NewCaller(past, e);
      NoReplyYet(s, past, c, why);
      assert [] + [Failed(Refusal(e.body))] == [Failed(Refusal(e.body))];
    }
  }

  lemma OtherFailed(s: Conn, past: seq<Event>, e: Event, c: Caller, why: Failure)
    requires Inv(s, past) && LogInv(s, past) && s.exit.None? && !e.Command?
    ensures Received(Step(s, e).inbox, c) == [Failed(why)] <==>
              RefusedFor(past, c, why) || (DrainReason(e) == Some(why) && c in s.pending.Values)
  {
    ReceivedNext(s, e, c);
    FailedSoFar(s, past, c, why);
    var before := Received(s.inbox, c);
    assert before + [] == before;
    if c in s.pending.Values {
      NoReplyYet(s, past, c, why);
      assert forall r: Reply :: before + [r] == [r];
    } else {
      assert IsReplyTo(s, e) ==> s.pending[e.frame.ref.value] in s.pending.Values;
    }
  }

  lemma StepFailed(s: Conn, past: seq<Event>, e: Event, c: Caller, why: Failure)
    requires Inv(s, past) && LogInv(s, past) && s.exit.None? && DistinctCallers(past + [e])
    ensures Received(Step(s, e).inbox, c) == [Failed(why)] <==>
              RefusedFor(past + [e], c, why) || DrainedFor(past + [e], c, why)
  {
    DrainedNext(s, past, e, c, why);
    if e.Command? {
      CommandFailed(s, past, e, c, why);
    } else {
      RefusedNext(past, e, c, why);
      OtherFailed(s, past, e, c, why);
    }
  }

  lemma StepLog(s: Conn, past: seq<Event>, e: Event)
    requires Inv(s, past) && LogInv(s, past) && s.exit.None? && DistinctCallers(past + [e])
    ensures LogInv(Step(s, e), past + [e])
  {
    StepSent(s, past, e);
    StepExit(s, e);
    assert (past + [e])[|past|] == e;
    forall c, why
      ensures Received(Step(s, e).inbox, c) == [Failed(why)] <==>
                RefusedFor(past + [e], c, why) || DrainedFor(past + [e], c, why)
    {
      StepFailed(s, past, e, c, why);
    }
  }

  lemma TurnInv(s: Conn, events: seq<Event>, i: nat)
    requires i < |events| < U64 && DistinctCallers(events) && s.exit.None? && Inv(s, events[..i])
    ensures Inv(Step(s, events[i]), events[..i + 1])
    ensures Run(s, events[i..]) == Run(Step(s, events[i]), events[i + 1..])
  {
    assert events[i..][1..] == events[i + 1..];
    assert events[..i] + [events[i]] == events[..i + 1];
    StepInv(s, events[..i], events[i]);
  }

  lemma TurnLog(s: Conn, events: seq<Event>, i: nat)
    requires i < |events| && DistinctCallers(events) && s.exit.None? && Inv(s, events[..i]) && LogInv(s, events[..i])
    ensures LogInv(Step(s, events[i]), events[..i + 1])
  {
    assert events[..i] + [events[i]] == events[..i + 1];
    StepLog(s, events[..i], events[i]);
  }

  // ----- whole runs -----

  /** The events a run consumed before it stopped. */
  function Consumed(s: Conn, events: seq<Event>): (n: nat)
    ensures n <= |events|
    decreases |events|
  {
    if events == [] || s.exit.Some? then 0 else 1 + Consumed(Step(s, events[0]), events[1..])
  }

  /** The run from turn `i` on ends with the invariant, over the events it consumed. */
  ghost predicate EndsSound(s: Conn, events: seq<Event>, i: nat)
    requires i <= |events|
  {
    var n := i + Consumed(s, events[i..]);
    n <= |events| && Inv(Run(s, events[i..]), events[..n]) && LogInv(Run(s, events[i..]), events[..n])
  }

  lemma TurnEndsSame(s: Conn, events: seq<Event>, i: nat)
    requires i < |events| && s.exit.None?
    ensures EndsSound(s, events, i) <==> EndsSound(Step(s, events[i]), events, i + 1)
  {
    assert events[i..][1..] == events[i + 1..];
  }

  lemma StopsSound(s: Conn, events: seq<Event>, i: nat)
    requires i <= |events| && (i == |events| || s.exit.Some?) && Inv(s, events[..i]) && LogInv(s, events[..i])
    ensures EndsSound(s, events, i)
  {
    assert Consumed(s, events[i..]) == 0 && Run(s, events[i..]) == s;
  }

  lemma {:induction false} RunInvFrom(s: Conn, events: seq<Event>, i: nat)
    requires i <= |events| < U64 && DistinctCallers(events) && Inv(s, events[..i]) && LogInv(s, events[..i])
    ensures EndsSound(s, events, i)
    decreases |events| - i
  {
    if i < |events| && s.exit.None? {
      TurnInv(s, events, i);
      TurnLog(s, events, i);
      TurnEndsSame(s, events, i);
      RunInvFrom(Step(s, events[i]), events, i + 1);
    } else {
      StopsSound(s, events, i);
    }
  }

  lemma OpenedInv()
    ensures Inv(OPENED, []) && LogInv(OPENED, [])
  {
  }

  lemma RunInv(events: seq<Event>)
    requires |events| < U64 && DistinctCallers(events)
    ensures Inv(Run(OPENED, events), events[..Consumed(OPENED, events)])
    ensures LogInv(Run(OPENED, events), events[..Consumed(OPENED, events)])
  {
    OpenedInv();
    assert events[..0] == [] && events[0..] == events;
    RunInvFrom(OPENED, events, 0);
  }

  /** Reply routing and conservation, on every run of one connection: references
      are never reused nor the join reference, each accepted caller is waiting
      under one reference or has received exactly one reply, and a caller has an
      answer exactly when it is the first reply to its reference after its command
      went out. */
  lemma RunIsSound(events: seq<Event>)
    requires |events| < U64 && DistinctCallers(events)
    ensures var s, past := Run(OPENED, events), events[..Consumed(OPENED, events)];
            && (forall i, j :: 0 <= i < j < |s.issued| ==> s.issued[i] != s.issued[j])
            && JOIN_REF !in s.issued
            && Injective(s.pending) && Conserved(s, past) && AllRouted(s, past)
  {
    RunInv(events);
    var s := Run(OPENED, events);
    RefsFreshIff(|s.issued|);
    forall i, j | 0 <= i < j < |s.issued| ensures s.issued[i] != s.issued[j] {
      assert RefAt(i) != RefAt(j);
    }
    forall i | 0 <= i < |s.issued| ensures s.issued[i] != JOIN_REF {
      assert RefAt(i) != JOIN_REF;
    }
  }

  /** What went out on every run, and who was told of which failure: each document
      with its own caller and content, each heartbeat, under their own references and
      in order; and a failure exactly for a refused command or a drained wait. */
  lemma RunSendsAndFails(events: seq<Event>)
    requires |events| < U64 && DistinctCallers(events)
    ensures var s, past := Run(OPENED, events), events[..Consumed(OPENED, events)];
            && s.sent == SentOf(past) && AllFailed(s, past)
            && s.issued == seq(Taken(past), k requires 0 <= k < Taken(past) => RefAt(k))
  {
    RunInv(events);
  }

  /** A run consumes the events up to and including the first that is an exit, all of
      them if there is none, and exits as that event says. */
  lemma {:induction false} StopsAtFirst(s: Conn, events: seq<Event>)
    requires s.exit.None?
    ensures var n := Consumed(s, events);
            && (forall i :: 0 <= i < n - 1 ==> StopOf(events[i]).None?)
            && (n < |events| ==> n > 0 && StopOf(events[n - 1]).Some?)
            && Run(s, events).exit == (if n == 0 then None else StopOf(events[n - 1]))
    decreases |events|
  {
    if events != [] {
      StepExit(s, events[0]);
      var next := Step(s, events[0]);
      if next.exit.None? {
        StopsAtFirst(next, events[1..]);
        assert forall i :: 0 < i < |events| ==> events[i] == events[1..][i - 1];
      } else {
        assert Consumed(next, events[1..]) == 0;
      }
    }
  }

  lemma InsertGrows(s: Conn, caller: Caller, json: string)
    requires RefsInv(s) && |s.issued| + 1 < U64
    ensures var t := CommandStep(s, caller, Payload(json), true);
            && |t.pending| == |s.pending| + 1
            && forall r :: r in s.pending ==> r in t.pending && t.pending[r] == s.pending[r]
  {
    FreshRef(s);
    var ref := Decimal(s.counter);
    assert s.pending[ref := caller].Keys == s.pending.Keys + {ref};
  }

  /** A pending insert never displaces an entry. */
  lemma InsertNeverDisplaces(events: seq<Event>, caller: Caller, json: string)
    requires |events| + 1 < U64 && DistinctCallers(events)
    ensures var s := Run(OPENED, events);
            var t := CommandStep(s, caller, Payload(json), true);
            && |t.pending| == |s.pending| + 1
            && forall r :: r in s.pending ==> r in t.pending && t.pending[r] == s.pending[r]
  {
    RunInv(events);
    InsertGrows(Run(OPENED, events), caller, json);
  }

  lemma LeftWaiting(s: Conn, past: seq<Event>, c: Caller)
    requires Inv(s, past)
    ensures (Accepted(past, c) && Received(s.inbox, c) == []) <==> (!Drained(s) && exists ref :: Waiting(past, ref, c))
  {
    if c in s.pending.Values {
      var ref :| ref in s.pending && s.pending[ref] == c;
      assert Pends(s, ref, c);
    }
    if ref :| !Drained(s) && Waiting(past, ref, c) {
      assert Pends(s, ref, c);
    }
  }

  /** Who is left without a reply when a run stops, wherever it stops: after an exit
      that drains, nobody; otherwise exactly the callers whose command went out and
      has had no reply. A failed send, a failed heartbeat and the end of all senders
      are exits that do not drain. */
  lemma LeftWaitingIff(events: seq<Event>, c: Caller)
    requires |events| < U64 && DistinctCallers(events)
    ensures var s, past := Run(OPENED, events), events[..Consumed(OPENED, events)];
            (Accepted(past, c) && Received(s.inbox, c) == []) <==> (!Drained(s) && exists ref :: Waiting(past, ref, c))
  {
    RunInv(events);
    LeftWaiting(Run(OPENED, events), events[..Consumed(OPENED, events)], c);
  }

  // ----- reconnecting -----

  datatype Attempt = Attempt(authenticated: bool, connected: bool)

  function Backoff(failures: nat): nat
  {
    if failures == 0 then 2 else (if Backoff(failures - 1) * 2 < 60 then Backoff(failures - 1) * 2 else 60)
  }

  /** `reconnect_loop`: the wait before each attempt, and whether it ends connected. */
  method ReconnectLoop(attempts: seq<Attempt>) returns (waits: seq<nat>, connected: bool)
    ensures |waits| <= |attempts| && forall i {:trigger waits[i]} :: 0 <= i < |waits| ==> waits[i] == Backoff(i)
    ensures connected ==> waits != [] && attempts[|waits| - 1] == Attempt(true, true)
    ensures forall i :: 0 <= i < |waits| - 1 ==> attempts[i] == Attempt(true, false)
    ensures !connected && |waits| < |attempts| ==> waits != [] && !attempts[|waits| - 1].authenticated
  {
    var backoff, n := 2, 0;
    waits, connected := [], false;
    while n < |attempts|
      invariant n == |waits| <= |attempts| && backoff == Backoff(n)
      invariant forall i {:trigger waits[i]} :: 0 <= i < n ==> waits[i] == Backoff(i)
      invariant forall i :: 0 <= i < n ==> attempts[i] == Attempt(true, false)
    {
      var a := attempts[n];
      waits := waits + [backoff];
      if !a.authenticated || a.connected {
        connected := a.authenticated;
        return;
      }
      backoff := if backoff * 2 < 60 then backoff * 2 else 60;
      n := n + 1;
    }
  }

  /** 2, 4, 8, 16, 32 seconds, and a minute from then on. */
  lemma {:induction false} BackoffIsCapped(n: nat)
    ensures n >= 5 ==> Backoff(n) == 60
    ensures n < 5 ==> Backoff(n) == [2, 4, 8, 16, 32][n]
  {
    if n > 0 {
      BackoffIsCapped(n - 1);
    }
  }
}
