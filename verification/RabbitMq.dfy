/** The RabbitMQ client's cached publisher channel, across reconnects, channel deaths, late close
    notifications and Close. A run is any sequence of events; impossible ones change nothing. */
module RabbitMq {
  import opened Sequences
  import opened Types

  /** What the goroutine started with a channel knows of its end. */
  datatype Notice =
    | Unwatched    // NotifyClose not yet registered
    | Watching
    | Pending      // an error is on its way to the goroutine
    | Told         // the goroutine has handled it
    | Missed       // the channel ended before it was watched, or without an error

  datatype Channel = Channel(conn: nat, dead: bool, notice: Notice)

  /** The client's three fields, then every connection ever dialled (true: closed) and every channel
      ever opened on them. */
  datatype State = State(
    conn: Option<nat>,
    publishCh: Option<nat>,
    publishChOpen: bool,
    conns: seq<bool>,
    chans: seq<Channel>)

  const START := State(None, None, false, [], [])

  datatype Event =
    | ConnDies(i: nat)
    | ChanDies(j: nat)
    | Watch(j: nat)
    | Notify(j: nat)
    | Connect(dialOk: bool)
    | PublisherChannel(dialOk: bool, openOk: bool)
    | Close(loud: bool)

  /** The end of a channel: a watcher is told of it, unless it ends quietly. */
  function End(ch: Channel, loud: bool): Channel {
    if ch.dead then ch
    else ch.(dead := true, notice := if !ch.notice.Watching? then ch.notice else if loud then Pending else Missed)
  }

  function EndAll(chans: seq<Channel>, conn: nat, loud: bool): (r: seq<Channel>)
    ensures |r| == |chans|
    ensures forall j :: 0 <= j < |chans| ==> r[j] == if chans[j].conn == conn then End(chans[j], loud) else chans[j]
  {
    if chans == [] then []
    else
      var ch := chans[|chans| - 1];
      EndAll(chans[..|chans| - 1], conn, loud) + [if ch.conn == conn then End(ch, loud) else ch]
  }

  predicate Connected(s: State) {
    s.conn.Some? && s.conn.value < |s.conns| && !s.conns[s.conn.value]
  }

  function Dial(s: State): State {
    s.(conn := Some(|s.conns|), conns := s.conns + [false], publishCh := None, publishChOpen := false)
  }

  /** Open a channel on the present connection and cache it. */
  function OpenChannel(s: State): State
    requires s.conn.Some?
  {
    s.(publishCh := Some(|s.chans|), publishChOpen := true,
       chans := s.chans + [Channel(s.conn.value, false, Unwatched)])
  }

  /** publisherChannel: the state it leaves and the channel it returns. */
  function Publisher(s: State, dialOk: bool, openOk: bool): (State, Option<nat>) {
    if !Connected(s) && !dialOk then (s, None)
    else
      var t := if Connected(s) then s else Dial(s);
      if t.publishCh.Some? && t.publishChOpen then (t, t.publishCh)
      else if !openOk then (t, None)
      else (OpenChannel(t), Some(|t.chans|))
  }

  function CloseChannel(s: State): State {
    if s.publishCh.None? then s
    else
      var j := s.publishCh.value;
      s.(publishCh := None, publishChOpen := false,
         chans := if j < |s.chans| then s.chans[j := End(s.chans[j], false)] else s.chans)
  }

  function CloseConn(s: State, loud: bool): State {
    if s.conn.None? then s
    else
      var i := s.conn.value;
      s.(conn := None,
         conns := if i < |s.conns| then s.conns[i := true] else s.conns,
         chans := EndAll(s.chans, i, loud))
  }

  function Step(s: State, e: Event): State {
    match e
    case ConnDies(i) =>
      if i < |s.conns| then s.(conns := s.conns[i := true], chans := EndAll(s.chans, i, true)) else s
    case ChanDies(j) => if j < |s.chans| then s.(chans := s.chans[j := End(s.chans[j], true)]) else s
    case Watch(j) =>
      if j < |s.chans| && s.chans[j].notice.Unwatched?
      then s.(chans := s.chans[j := s.chans[j].(notice := if s.chans[j].dead then Missed else Watching)])
      else s
    case Notify(j) =>
      if j < |s.chans| && s.chans[j].notice.Pending?
      then s.(chans := s.chans[j := s.chans[j].(notice := Told)],
              publishChOpen := s.publishChOpen && s.publishCh != Some(j))
      else s
    case Connect(dialOk) => if Connected(s) || !dialOk then s else Dial(s)
    case PublisherChannel(dialOk, openOk) => Publisher(s, dialOk, openOk).0
    case Close(loud) => CloseConn(CloseChannel(s), loud)
  }

  function After(es: seq<Event>): State {
    if es == [] then START else Step(After(es[..|es| - 1]), es[|es| - 1])
  }

  lemma AfterSnoc(es: seq<Event>, e: Event)
    ensures After(es + [e]) == Step(After(es), e)
  {
    InitOfSnoc(es, e);
  }

  lemma AfterLast(es: seq<Event>, more: seq<Event>)
    requires more != []
    ensures After(es + more) == Step(After(es + more[..|more| - 1]), more[|more| - 1])
  {
    LastOfAppend(es, more);
    AfterSnoc(es + more[..|more| - 1], more[|more| - 1]);
  }

  // ---- What the events do to the broker ------------------------------------------------------------------

  /** How a channel takes an end: a first end kills it, and one that is watched is reported if the end
      carries an error, and missed if it does not. */
  predicate Ended(before: Channel, after: Channel, loud: bool) {
    && after.dead && after.conn == before.conn
    && (before.dead ==> after == before)
    && (!before.dead && before.notice != Watching ==> after.notice == before.notice)
    && (!before.dead && before.notice == Watching ==> after.notice == if loud then Pending else Missed)
  }

  /** Close ends the cached channel, closes the connection with every channel on it, and leaves every
      other connection and channel alone. */
  lemma CloseEnds(s: State, loud: bool)
    requires Coherent(s)
    ensures var t := Step(s, Close(loud));
            && t.conn == None && t.publishCh == None && !t.publishChOpen
            && |t.conns| == |s.conns| && |t.chans| == |s.chans|
            && (forall i :: 0 <= i < |s.conns| ==> t.conns[i] == (s.conns[i] || s.conn == Some(i)))
            && (forall j :: 0 <= j < |s.chans| ==>
                  if s.publishCh == Some(j) then Ended(s.chans[j], t.chans[j], false)
                  else if s.conn == Some(s.chans[j].conn) then Ended(s.chans[j], t.chans[j], loud)
                  else t.chans[j] == s.chans[j])
  {
  }

  /** A dying connection takes its channels with it, loudly, and touches neither the others nor the
      client's fields; a dying channel only itself. */
  lemma DeathsEnd(s: State, n: nat)
    ensures var t := Step(s, ConnDies(n));
            && t.conn == s.conn && t.publishCh == s.publishCh && t.publishChOpen == s.publishChOpen
            && |t.conns| == |s.conns| && |t.chans| == |s.chans|
            && (forall i :: 0 <= i < |s.conns| ==> t.conns[i] == (s.conns[i] || i == n))
            && (forall j :: 0 <= j < |s.chans| ==>
                  if n < |s.conns| && s.chans[j].conn == n then Ended(s.chans[j], t.chans[j], true)
                  else t.chans[j] == s.chans[j])
    ensures var t := Step(s, ChanDies(n));
            && t.conn == s.conn && t.publishCh == s.publishCh && t.publishChOpen == s.publishChOpen && t.conns == s.conns
            && |t.chans| == |s.chans|
            && (forall j :: 0 <= j < |s.chans| ==>
                  if j == n then Ended(s.chans[j], t.chans[j], true) else t.chans[j] == s.chans[j])
  {
  }

  /** Registering for the end of a channel and being told of it touch that channel's notice and, if it is
      cached, the open mark, and nothing else. */
  lemma NoticesMove(s: State, j: nat)
    requires j < |s.chans|
    ensures Step(s, Watch(j)).conn == s.conn && Step(s, Watch(j)).conns == s.conns
            && Step(s, Watch(j)).publishCh == s.publishCh && Step(s, Watch(j)).publishChOpen == s.publishChOpen
    ensures Step(s, Watch(j)).chans
            == if s.chans[j].notice != Unwatched then s.chans
               else s.chans[j := s.chans[j].(notice := if s.chans[j].dead then Missed else Watching)]
    ensures s.chans[j].notice == Pending ==>
              && Step(s, Notify(j)).chans == s.chans[j := s.chans[j].(notice := Told)]
              && Step(s, Notify(j)).publishChOpen == (s.publishChOpen && s.publishCh != Some(j))
    ensures s.chans[j].notice != Pending ==> Step(s, Notify(j)) == s
  {
  }

  /** So the cache is repaired when the goroutine is in time: a cached channel that is watched, dies and is
      reported is not returned again. */
  lemma TimelyWatchRepairs(s: State, j: nat, dialOk: bool, openOk: bool)
    requires Coherent(s) && j < |s.chans| && s.chans[j].notice == Unwatched && !s.chans[j].dead
    ensures var t := Step(Step(Step(s, Watch(j)), ChanDies(j)), Notify(j));
            && (s.publishCh == Some(j) ==> !t.publishChOpen)
            && Publisher(t, dialOk, openOk).1 != Some(j)
  {
    var u := Step(s, Watch(j));
    assert u == s.(chans := s.chans[j := s.chans[j].(notice := Watching)]);
    var v := Step(u, ChanDies(j));
    assert v == s.(chans := s.chans[j := s.chans[j].(notice := Pending, dead := true)]);
  }

  /** A publish that cannot dial changes nothing; one that cannot open a channel changes at most the
      connection. A live connection is kept, and so is a cached channel that is marked open. */
  lemma PublishKeeps(s: State, dialOk: bool, openOk: bool)
    requires Coherent(s)
    ensures var (t, ch) := Publisher(s, dialOk, openOk);
            var live := s.conn.Some? && !s.conns[s.conn.value];
            && (!live && !dialOk ==> ch == None && t == s)
            && (live ==> t.conn == s.conn && t.conns == s.conns)
            && (!live && dialOk ==> t.conn == Some(|s.conns|) && t.conns == s.conns + [false])
            && (live && s.publishChOpen ==> ch == s.publishCh && t == s)
            && (live && !s.publishChOpen && !openOk ==> ch == None && t == s)
            && (!live && dialOk && !openOk ==> ch == None && t.publishCh == None && t.chans == s.chans)
            && ((if live then !s.publishChOpen else dialOk) && openOk ==>
                  && ch == t.publishCh == Some(|s.chans|) && t.publishChOpen
                  && t.chans == s.chans + [Channel(t.conn.value, false, Unwatched)])
  {
  }

  // ---- Coherence -----------------------------------------------------------------------------------------

  /** The cached channel was opened on the connection the client has now. */
  predicate Coherent(s: State) {
    && (s.conn.Some? ==> s.conn.value < |s.conns|)
    && (s.publishCh.Some? ==> s.publishCh.value < |s.chans| && s.conn == Some(s.chans[s.publishCh.value].conn))
    && (s.publishChOpen ==> s.publishCh.Some?)
  }

  /** What channel j's notice says of its life; and the cached channel is closed once its watcher was told. */
  predicate NoticeOk(s: State, j: nat) {
    j < |s.chans| ==>
      var ch := s.chans[j];
      && ch.conn < |s.conns|
      && (ch.notice.Watching? ==> !ch.dead)
      && (ch.notice.Pending? || ch.notice.Told? || ch.notice.Missed? ==> ch.dead)
      && (ch.notice.Told? && s.publishCh == Some(j) ==> !s.publishChOpen)
      && (s.conns[ch.conn] ==> ch.dead)
  }

  ghost predicate NoticesOk(s: State) {
    forall j :: NoticeOk(s, j)
  }

  lemma CoherentStep(s: State, e: Event)
    requires Coherent(s)
    ensures Coherent(Step(s, e))
  {
  }

  lemma CloseNotice(s: State, loud: bool, j: nat)
    requires Coherent(s) && NoticeOk(s, j)
    ensures NoticeOk(Step(s, Close(loud)), j)
  {
    var t := CloseChannel(s);
    assert NoticeOk(t, j) && Coherent(t);
  }

  lemma NoticeStep(s: State, e: Event, j: nat)
    requires Coherent(s) && NoticeOk(s, j)
    ensures NoticeOk(Step(s, e), j)
  {
    if e.Close? { CloseNotice(s, e.loud, j); }
  }

  lemma StepKeeps(s: State, e: Event)
    requires Coherent(s) && NoticesOk(s)
    ensures Coherent(Step(s, e)) && NoticesOk(Step(s, e))
  {
    CoherentStep(s, e);
    forall j ensures NoticeOk(Step(s, e), j) { assert NoticeOk(s, j); NoticeStep(s, e, j); }
  }

  lemma {:induction false} Invariant(es: seq<Event>)
    ensures Coherent(After(es)) && NoticesOk(After(es))
  {
    if es != [] {
      Invariant(es[..|es| - 1]);
      StepKeeps(After(es[..|es| - 1]), es[|es| - 1]);
    }
  }

  /** In every run, publisherChannel returns only the cached channel of the connection current at that
      step, found open or newly dialled; it fails only when dialling or opening does. */
  lemma {:induction false} ReturnsCurrentChannel(es: seq<Event>, dialOk: bool, openOk: bool)
    ensures var (s', ch) := Publisher(After(es), dialOk, openOk);
            && (ch.Some? ==>
                  && s'.publishCh == ch && s'.publishChOpen && ch.value < |s'.chans|
                  && s'.conn == Some(s'.chans[ch.value].conn) && Connected(s'))
            && (ch.None? ==> (!Connected(After(es)) && !dialOk) || !openOk)
  {
    Invariant(es);
  }

  predicate Reported(ch: Channel) {
    ch.dead && (ch.notice.Pending? || ch.notice.Told?)
  }

  /** The states are the same but for how far the report of an uncached channel's end has come. */
  predicate Alike(s: State, t: State, j: nat) {
    s == t || (&& j < |s.chans| == |t.chans| && s.publishCh != Some(j) && Reported(s.chans[j])
               && t == s.(chans := s.chans[j := s.chans[j].(notice := t.chans[j].notice)]) && Reported(t.chans[j]))
  }

  lemma EndAllAlike(a: seq<Channel>, b: seq<Channel>, j: nat, conn: nat, loud: bool)
    requires j < |a| == |b| && Reported(a[j]) && b == a[j := b[j]] && b[j] == a[j].(notice := b[j].notice)
    ensures EndAll(b, conn, loud) == EndAll(a, conn, loud)[j := b[j]] && EndAll(a, conn, loud)[j] == a[j]
  {
  }

  lemma ClosesAlike(s: State, t: State, j: nat, loud: bool)
    requires Alike(s, t, j) && s != t && Coherent(s)
    ensures Alike(Step(s, Close(loud)), Step(t, Close(loud)), j)
  {
    var s1, t1 := CloseChannel(s), CloseChannel(t);
    assert Alike(s1, t1, j) && s1.chans[j] == s.chans[j] && t1.chans[j] == t.chans[j];
    if s1.conn.Some? { EndAllAlike(s1.chans, t1.chans, j, s1.conn.value, loud); }
  }

  lemma AlikeStep(s: State, t: State, j: nat, e: Event)
    requires Alike(s, t, j) && Coherent(s)
    ensures Alike(Step(s, e), Step(t, e), j)
  {
    if s != t {
      if e.Close? {
        ClosesAlike(s, t, j, e.loud);
      } else if e.ConnDies? {
        EndAllAlike(s.chans, t.chans, j, e.i, true);
      } else if e.PublisherChannel? || e.Connect? {
        DialsAlike(s, t, j, e);
      } else {
        NoticesAlike(s, t, j, e);
      }
    }
  }

  lemma DialsAlike(s: State, t: State, j: nat, e: Event)
    requires Alike(s, t, j) && s != t && (e.PublisherChannel? || e.Connect?)
    ensures Alike(Step(s, e), Step(t, e), j)
  {
  }

  lemma NoticesAlike(s: State, t: State, j: nat, e: Event)
    requires Alike(s, t, j) && s != t && (e.ChanDies? || e.Watch? || e.Notify?)
    ensures Alike(Step(s, e), Step(t, e), j)
  {
  }

  lemma {:induction false} AlikeForever(es: seq<Event>, fs: seq<Event>, j: nat, more: seq<Event>)
    requires Alike(After(es), After(fs), j)
    ensures Alike(After(es + more), After(fs + more), j)
    decreases |more|
  {
    if more == [] {
      assert es + more == es && fs + more == fs;
    } else {
      var init, e := more[..|more| - 1], more[|more| - 1];
      AlikeForever(es, fs, j, init);
      AfterLast(es, more);
      AfterLast(fs, more);
      CoherentAlike(es + init, After(fs + init), j, e);
    }
  }

  lemma CoherentAlike(es: seq<Event>, t: State, j: nat, e: Event)
    requires Alike(After(es), t, j)
    ensures Alike(Step(After(es), e), Step(t, e), j)
  {
    Invariant(es);
    AlikeStep(After(es), t, j, e);
  }

  /** A late notification for a channel that is no longer cached is as if it had never come: in every run
      and after any further events, each publish is given what it would be given without it. */
  lemma {:induction false} SupersededNoticeIgnored(es: seq<Event>, j: nat, more: seq<Event>, dialOk: bool, openOk: bool)
    requires After(es).publishCh != Some(j)
    ensures Publisher(After(es + [Notify(j)] + more), dialOk, openOk).1
            == Publisher(After(es + more), dialOk, openOk).1
  {
    Invariant(es);
    assert NoticeOk(After(es), j);
    AfterSnoc(es, Notify(j));
    NoticeMoves(After(es), j);
    AlikeForever(es + [Notify(j)], es, j, more);
  }

  lemma NoticeMoves(s: State, j: nat)
    requires NoticeOk(s, j) && s.publishCh != Some(j)
    ensures Alike(Step(s, Notify(j)), s, j)
  {
  }

  /** The goroutine of channel j registers for its end only after it has ended. */
  predicate LateWatch(s: State, e: Event, j: nat) {
    e == Watch(j) && j < |s.chans| && s.chans[j].notice.Unwatched? && s.chans[j].dead
  }

  predicate LateAt(es: seq<Event>, i: nat, j: nat) {
    i < |es| && LateWatch(After(es[..i]), es[i], j)
  }

  ghost predicate EverLate(es: seq<Event>, j: nat) {
    exists i :: LateAt(es, i, j)
  }

  lemma LateAtSnoc(es: seq<Event>, e: Event, i: nat, j: nat)
    ensures LateAt(es + [e], i, j) <==> if i == |es| then LateWatch(After(es), e, j) else LateAt(es, i, j)
  {
    var all := es + [e];
    if i < |es| {
      assert all[..i] == es[..i] && all[i] == es[i];
    } else if i == |es| {
      assert all[..i] == es && all[i] == e;
    }
  }

  lemma EverLateSnoc(es: seq<Event>, e: Event, j: nat)
    ensures EverLate(es + [e], j) <==> EverLate(es, j) || LateWatch(After(es), e, j)
  {
    forall i ensures LateAt(es + [e], i, j) <==> if i == |es| then LateWatch(After(es), e, j) else LateAt(es, i, j) {
      LateAtSnoc(es, e, i, j);
    }
    assert LateAt(es + [e], |es|, j) <==> LateWatch(After(es), e, j);
    if EverLate(es, j) {
      var i :| LateAt(es, i, j);
      assert LateAt(es + [e], i, j);
    }
  }

  /** A missed end stays missed; that of a cached channel is a late watch. */
  predicate MissedOk(s: State, j: nat, late: bool) {
    && (late ==> j < |s.chans| && s.chans[j].notice.Missed?)
    && (s.publishCh == Some(j) && j < |s.chans| && s.chans[j].notice.Missed? ==> late)
  }

  lemma MissedStep(s: State, e: Event, j: nat, late: bool)
    requires Coherent(s) && NoticeOk(s, j) && MissedOk(s, j, late)
    ensures MissedOk(Step(s, e), j, late || LateWatch(s, e, j))
  {
    if e.Close? { assert MissedOk(CloseChannel(s), j, late) && Coherent(CloseChannel(s)); }
  }

  lemma {:induction false} MissedIsLate(es: seq<Event>, j: nat)
    ensures MissedOk(After(es), j, EverLate(es, j))
  {
    if es != [] {
      var init := es[..|es| - 1];
      MissedIsLate(init, j);
      Invariant(init);
      assert NoticeOk(After(init), j);
      EverLateSnoc(init, es[|es| - 1], j);
      assert init + [es[|es| - 1]] == es;
      MissedStep(After(init), es[|es| - 1], j, EverLate(init, j));
    }
  }

  /** In every run: a channel that is cached open, that is watched and of whose end no report is under
      way, is dead if and only if its goroutine came too late to register. */
  lemma {:induction false} DeadIffLateWatch(es: seq<Event>, j: nat)
    requires var s := After(es);
             && s.publishCh == Some(j) && s.publishChOpen && j < |s.chans|
             && !s.chans[j].notice.Pending? && !s.chans[j].notice.Unwatched?
    ensures After(es).chans[j].dead <==> EverLate(es, j)
  {
    Invariant(es);
    MissedIsLate(es, j);
    assert NoticeOk(After(es), j);
  }

  /** When publisherChannel returns a dead channel that is being watched: exactly when its end is being
      reported or its goroutine came too late. */
  lemma {:induction false} ReturnedDeadIff(es: seq<Event>, dialOk: bool, openOk: bool)
    requires Publisher(After(es), dialOk, openOk).1.Some?
    ensures var (s', ch) := Publisher(After(es), dialOk, openOk);
            ch.value < |s'.chans| &&
            var j := s'.chans[ch.value];
            j.dead && !j.notice.Unwatched? <==> j.notice.Pending? || EverLate(es, ch.value)
  {
    var (s', ch) := Publisher(After(es), dialOk, openOk);
    Invariant(es);
    StepKeeps(After(es), PublisherChannel(dialOk, openOk));
    MissedIsLate(es, ch.value);
    assert NoticeOk(After(es), ch.value) && NoticeOk(s', ch.value);
  }

  /** Nothing in the events takes the connection away from the client. */
  ghost predicate Undisturbed(es: seq<Event>, conn: nat) {
    forall i :: 0 <= i < |es| ==> !es[i].Close? && es[i] != ConnDies(conn)
  }

  /** The cache holds channel j, open as far as it knows, although j's end was missed. */
  predicate StuckOn(s: State, j: nat) {
    && Coherent(s) && Connected(s) && s.publishCh == Some(j) && s.publishChOpen
    && s.chans[j].dead && s.chans[j].notice.Missed?
  }

  /** A missed end is never repaired: as long as the connection lives and Close is not called, every
      publish is given the same dead channel. */
  lemma {:induction false} MissedEndSticks(s: State, es: seq<Event>, j: nat)
    requires StuckOn(s, j) && Undisturbed(es, s.conn.value)
    ensures StuckOn(Continue(s, es), j)
    ensures forall dialOk, openOk :: Publisher(Continue(s, es), dialOk, openOk) == (Continue(s, es), Some(j))
    decreases |es|
  {
    if es != [] {
      assert es[0] != ConnDies(s.conn.value) && !es[0].Close?;
      assert forall i :: 0 <= i < |es| - 1 ==> es[1..][i] == es[i + 1];
      MissedEndSticks(Step(s, es[0]), es[1..], j);
    }
  }

  function Continue(s: State, es: seq<Event>): State
    decreases |es|
  {
    if es == [] then s else Continue(Step(s, es[0]), es[1..])
  }

  /** It does happen: the channel dies after it is cached and before its goroutine registers. */
  lemma MissedEndInstance()
    ensures StuckOn(Continue(START, [PublisherChannel(true, true), ChanDies(0), Watch(0)]), 0)
  {
    var s1 := Step(START, PublisherChannel(true, true));
    var s2 := Step(s1, ChanDies(0));
    var s3 := Step(s2, Watch(0));
    var es := [PublisherChannel(true, true), ChanDies(0), Watch(0)];
    assert es[1..] == [ChanDies(0), Watch(0)] && es[1..][1..] == [Watch(0)] && es[1..][1..][1..] == [];
    assert Continue(s2, [Watch(0)]) == Continue(s3, []);
  }

  /** The step dials, and the broker answers. */
  predicate Dials(s: State, e: Event) {
    (e.Connect? || e.PublisherChannel?) && e.dialOk && !Connected(s)
  }

  /** Event i of the run is a Close, and no dial succeeds after it. */
  ghost predicate ClosedSince(es: seq<Event>, i: nat) {
    i < |es| && es[i].Close? && forall j :: i < j < |es| ==> !Dials(After(es[..j]), es[j])
  }

  lemma ClosedSinceSnoc(es: seq<Event>, e: Event, i: nat)
    ensures ClosedSince(es + [e], i) <==> if i == |es| then e.Close? else ClosedSince(es, i) && !Dials(After(es), e)
  {
    var all := es + [e];
    assert forall j :: 0 <= j < |es| ==> all[..j] == es[..j] && all[j] == es[j];
    assert all[..|es|] == es && all[|es|] == e;
  }

  ghost predicate EverClosedSince(es: seq<Event>, from: nat) {
    exists i :: from <= i && ClosedSince(es, i)
  }

  lemma EverClosedSnoc(es: seq<Event>, e: Event, from: nat)
    requires from <= |es|
    ensures EverClosedSince(es + [e], from) <==> e.Close? || (EverClosedSince(es, from) && !Dials(After(es), e))
  {
    ClosedSinceSnoc(es, e, |es|);
    if EverClosedSince(es + [e], from) {
      var i :| from <= i && ClosedSince(es + [e], i);
      ClosedSinceSnoc(es, e, i);
    }
    if EverClosedSince(es, from) && !Dials(After(es), e) {
      var i :| from <= i && ClosedSince(es, i);
      ClosedSinceSnoc(es, e, i);
    }
  }

  lemma NilStep(s: State, e: Event)
    ensures Step(s, e).conn.None? <==> e.Close? || (s.conn.None? && !Dials(s, e))
  {
  }

  /** The connection that `connection` reads without the mutex after Connect is nil exactly when a
      Close came since and no dial has succeeded after it. */
  lemma {:induction false} UnlockedReadIsNilIff(es: seq<Event>, more: seq<Event>)
    requires After(es).conn.Some?
    ensures After(es + more).conn.None? <==> EverClosedSince(es + more, |es|)
    decreases |more|
  {
    if more == [] {
      assert es + more == es;
    } else {
      var init, e := more[..|more| - 1], more[|more| - 1];
      UnlockedReadIsNilIff(es, init);
      AfterLast(es, more);
      NilStep(After(es + init), e);
      EverClosedSnoc(es + init, e, |es|);
      LastOfAppend(es, more);
    }
  }

  /** It does happen: Connect dials, and a Close comes before the read. */
  lemma UnlockedReadInstance(loud: bool)
    ensures After([Connect(true)]).conn.Some? && After([Connect(true)] + [Close(loud)]).conn.None?
  {
    AfterSnoc([], Connect(true));
    assert [] + [Connect(true)] == [Connect(true)];
    AfterSnoc([Connect(true)], Close(loud));
  }

  // ---- The client object -----------------------------------------------------------------------------------

  /** The broker's side: what the client library would report about connections and channels. */
  class Broker {
    var conns: seq<bool>
    var chans: seq<Channel>

    constructor ()
      ensures conns == [] && chans == []
    {
      conns, chans := [], [];
    }
  }

  datatype CloseError = ChannelCloseFailed | ConnCloseFailed

  class Client {
    const broker: Broker
    var conn: Option<nat>
    var publishCh: Option<nat>
    var publishChOpen: bool

    function View(): State
      reads this, broker
    {
      State(conn, publishCh, publishChOpen, broker.conns, broker.chans)
    }

    constructor (broker: Broker)
      ensures this.broker == broker && conn == None && publishCh == None && !publishChOpen
    {
      this.broker := broker;
      conn, publishCh, publishChOpen := None, None, false;
    }

    method Redial()
      modifies this, broker`conns
      ensures View() == Dial(old(View()))
    {
      conn := Some(|broker.conns|);
      broker.conns := broker.conns + [false];
      publishCh := None;
      publishChOpen := false;
    }

    method ConnectIfNeeded(dialOk: bool) returns (ok: bool)
      requires Coherent(View())
      modifies this, broker`conns
      ensures View() == Step(old(View()), Connect(dialOk)) && Coherent(View())
      ensures ok <==> Connected(View())
      ensures if old(conn.Some? && !broker.conns[conn.value]) || !dialOk then View() == old(View())
              else conn == Some(|old(broker.conns)|) && broker.conns == old(broker.conns) + [false]
                   && publishCh == None && !publishChOpen && broker.chans == old(broker.chans)
    {
      if conn.Some? && !broker.conns[conn.value] {
        return true;
      }
      if !dialOk {
        return false;
      }
      Redial();
      ok := true;
    }

    method PublisherChannelFor(dialOk: bool, openOk: bool) returns (ch: Option<nat>)
      requires Coherent(View())
      modifies this, broker
      ensures View() == Publisher(old(View()), dialOk, openOk).0 && ch == Publisher(old(View()), dialOk, openOk).1
      ensures Coherent(View())
    {
      if conn.None? || broker.conns[conn.value] {
        if !dialOk {
          return None;
        }
        Redial();
      }
      if publishCh.Some? && publishChOpen {
        return publishCh;
      }
      if !openOk {
        return None;
      }
      publishCh := Some(|broker.chans|);
      broker.chans := broker.chans + [Channel(conn.value, false, Unwatched)];
      publishChOpen := true;
      ch := publishCh;
    }

    /** The critical section of the close-notification goroutine of channel j. */
    method OnClosed(j: nat)
      requires Coherent(View()) && j < |broker.chans| && broker.chans[j].notice.Pending?
      modifies this`publishChOpen, broker`chans
      ensures View() == Step(old(View()), Notify(j)) && Coherent(View())
      ensures publishChOpen == (old(publishChOpen) && publishCh != Some(j))
      ensures broker.chans == old(broker.chans)[j := old(broker.chans)[j].(notice := Told)]
    {
      broker.chans := broker.chans[j := broker.chans[j].(notice := Told)];
      if publishCh == Some(j) {
        publishChOpen := false;
      }
    }

    /** Close: both ends are closed whatever fails, and the first failure is what the caller is told. */
    method Shutdown(loud: bool, channelFails: bool, connFails: bool) returns (firstErr: Option<CloseError>)
      requires Coherent(View())
      modifies this, broker
      ensures View() == Step(old(View()), Close(loud)) && Coherent(View())
      ensures conn == None && publishCh == None && !publishChOpen
      ensures firstErr == if old(publishCh).Some? && channelFails then Some(ChannelCloseFailed)
                          else if old(conn).Some? && connFails then Some(ConnCloseFailed)
                          else None
    {
      firstErr := None;
      CoherentStep(View(), Close(loud));
      if publishCh.Some? {
        if channelFails {
          firstErr := Some(ChannelCloseFailed);
        }
        DropChannel();
      }
      if conn.Some? {
        if connFails && firstErr.None? {
          firstErr := Some(ConnCloseFailed);
        }
        DropConnection(loud);
      }
    }

    method DropChannel()
      requires Coherent(View()) && publishCh.Some?
      modifies this`publishCh, this`publishChOpen, broker`chans
      ensures View() == CloseChannel(old(View()))
    {
      var j := publishCh.value;
      broker.chans := broker.chans[j := End(broker.chans[j], false)];
      publishCh := None;
      publishChOpen := false;
    }

    method DropConnection(loud: bool)
      requires conn.Some? && conn.value < |broker.conns|
      modifies this`conn, broker
      ensures View() == CloseConn(old(View()), loud)
    {
      var i := conn.value;
      broker.conns := broker.conns[i := true];
      broker.chans := EndAll(broker.chans, i, loud);
      conn := None;
    }
  }
}
