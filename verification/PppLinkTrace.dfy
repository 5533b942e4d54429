/** What a cascade of nested events leaves alone, and what it leaves on the wire. */
module PppLinkTrace {
  import opened Wrappers
  import opened ControlProtocol
  import opened PppLink

  /** A Terminate-Ack of LCP is among the frames. */
  predicate HasTerminateAck(frames: seq<PppLink.Frame>) {
    exists k :: 0 <= k < |frames| && frames[k].LcpFrame? && frames[k].sent.TerminateAck?
  }

  /** Nothing but control packets and authentication requests. */
  predicate Ordinary(frames: seq<PppLink.Frame>) {
    forall k :: 0 <= k < |frames| ==> frames[k].LcpFrame? || frames[k].IpcpFrame? || frames[k].PapRequest?
  }

  /** From `l` to `m` frames were only added to the wire, and the pending mark was set exactly if a queued
      Terminate-Ack of LCP is among them; traffic and the kind of authentication are the same. */
  predicate Tracks(l: Link, m: Link, env: Env) {
    && m.traffic == l.traffic && m.chap == l.chap && m.pap.Some? == l.pap.Some?
    && l.wire <= m.wire
    && Ordinary(m.wire[|l.wire|..])
    && m.staPending == (l.staPending || (env.sendOk && HasTerminateAck(m.wire[|l.wire|..])))
  }

  lemma HasInConcat(a: seq<PppLink.Frame>, b: seq<PppLink.Frame>)
    ensures HasTerminateAck(a + b) <==> HasTerminateAck(a) || HasTerminateAck(b)
    ensures Ordinary(a + b) <==> Ordinary(a) && Ordinary(b)
  {
    var c := a + b;
    if k :| 0 <= k < |a| && a[k].LcpFrame? && a[k].sent.TerminateAck? {
      assert c[k] == a[k];
    }
    if k :| 0 <= k < |b| && b[k].LcpFrame? && b[k].sent.TerminateAck? {
      assert c[|a| + k] == b[k];
    }
    if Ordinary(c) {
      forall k | 0 <= k < |a| ensures a[k].LcpFrame? || a[k].IpcpFrame? || a[k].PapRequest? { assert c[k] == a[k]; }
      forall k | 0 <= k < |b| ensures b[k].LcpFrame? || b[k].IpcpFrame? || b[k].PapRequest? {
        assert c[|a| + k] == b[k];
      }
    }
  }

  lemma TracksThen(l: Link, m: Link, n: Link, env: Env)
    requires Tracks(l, m, env) && Tracks(m, n, env)
    ensures Tracks(l, n, env)
  {
    hide HasTerminateAck, Ordinary;
    var a, b := m.wire[|l.wire|..], n.wire[|m.wire|..];
    assert n.wire[|l.wire|..] == a + b;
    HasInConcat(a, b);
  }

  /** Nothing that is tracked changed. */
  lemma TracksSame(l: Link, m: Link, env: Env)
    requires m.traffic == l.traffic && m.chap == l.chap && m.pap.Some? == l.pap.Some?
    requires m.wire == l.wire && m.staPending == l.staPending
    ensures Tracks(l, m, env)
  {
    assert m.wire[|l.wire|..] == [];
  }

  lemma TracksPapRequest(l: Link, m: Link, env: Env)
    requires m.traffic == l.traffic && m.chap == l.chap && m.pap.Some? == l.pap.Some?
    requires m.wire == l.wire + [PapRequest] && m.staPending == l.staPending
    ensures Tracks(l, m, env)
  {
    assert m.wire[|l.wire|..] == [PapRequest];
  }

  lemma MovedTracks(l: Link, which: Which, f: Fired, env: Env)
    ensures Tracks(l, Moved(l, which, f, env), env)
  {
    var frames := FramesOf(which, f.sent);
    var m := Moved(l, which, f, env);
    assert m.wire[|l.wire|..] == frames;
    if which == LCP && AcksTermination(f.sent) {
      var k :| 0 <= k < |f.sent| && f.sent[k].TerminateAck?;
      assert frames[k].LcpFrame? && frames[k].sent.TerminateAck?;
    }
  }

  /** The same around a change that is not tracked. */
  lemma TracksAround(l: Link, m: Link, n: Link, n': Link, env: Env)
    requires Tracks(l, m, env)
    requires n.traffic == m.traffic && n.chap == m.chap && n.pap.Some? == m.pap.Some?
    requires n.wire == m.wire && n.staPending == m.staPending
    requires Tracks(n, n', env)
    ensures Tracks(l, n', env)
  {
    TracksSame(m, n, env);
    TracksThen(l, m, n, env);
    TracksThen(l, n, n', env);
  }

  /** Every event is tracked, however deep its cascade. */
  lemma {:induction false} GenerateTracks(l: Link, which: Which, e: Event, p: Packet, env: Env)
    ensures Tracks(l, Generate(l, which, e, p, env), env)
    decreases Depth(l, which, e), 0
  {
    hide Fire, FramesOf, AcksTermination, AuthNotify, LcpDownNotify, Raise, Tracks, LcpUpNotify;
    SignalsGoDown(l, which, e, p);
    var f := Fire(CpOf(l, which), e, p);
    var m := Moved(l, which, f, env);
    MovedTracks(l, which, f, env);
    if which == LCP && f.layer == LayerUp {
      UpTracks(m, env);
      TracksThen(l, m, LcpUpNotify(m, env), env);
    } else if which == LCP && f.layer == LayerDown {
      var n := m.(lcp := m.lcp.(localOptions := env.lcpOptions));
      DownTracks(n, env);
      TracksAround(l, m, n, LcpDownNotify(n, env), env);
    } else if which == LCP && f.layer == LayerFinished {
      TracksSame(m, EnterPhase(m, Dead), env);
      TracksThen(l, m, EnterPhase(m, Dead), env);
    } else if which == IPCP && f.layer == LayerUp {
      IpcpUpTracks(l, m, env);
    } else if which == IPCP && f.layer == LayerDown {
      var n := IpcpDownNotify(m.(ipcp := m.ipcp.(localOptions := env.ipcpOptions)));
      TracksSame(m, n, env);
      TracksThen(l, m, n, env);
    } else if which == IPCP && f.layer == LayerFinished && m.phase == Network {
      var n := m.(reason := IpcpFail);
      RaiseTracks(n, IPCP, Close, env);
      TracksAround(l, m, n, Raise(n, IPCP, Close, env), env);
      RaiseTracks(Raise(n, IPCP, Close, env), LCP, Close, env);
      TracksThen(l, Raise(n, IPCP, Close, env), Raise(Raise(n, IPCP, Close, env), LCP, Close, env), env);
    }
  }

  lemma {:induction false} IpcpUpTracks(l: Link, m: Link, env: Env)
    requires Tracks(l, m, env)
    ensures Tracks(l, IpcpUpNotify(m, env), env)
    decreases 3, 0
  {
    hide Raise, Tracks;
    if env.netCreated {
      TracksSame(m, IpcpUpNotify(m, env), env);
      TracksThen(l, m, IpcpUpNotify(m, env), env);
    } else {
      var n := m.(net := false, reason := NetFail);
      RaiseTracks(n, LCP, Close, env);
      TracksAround(l, m, n, Raise(n, LCP, Close, env), env);
    }
  }

  lemma {:induction false} UpTracks(l: Link, env: Env)
    ensures Tracks(l, LcpUpNotify(l, env), env)
    decreases 4, 0
  {
    hide AuthNotify, Tracks;
    if l.chap {
      TracksSame(l, LcpUpNotify(l, env), env);
    } else if l.pap.Some? && env.papStarts {
      TracksPapRequest(l, LcpUpNotify(l, env), env);
    } else {
      AuthTracks(l, l.pap.None?, env);
    }
  }

  lemma {:induction false} RaiseTracks(l: Link, which: Which, e: Event, env: Env)
    ensures Tracks(l, Raise(l, which, e, env), env)
    decreases Depth(l, which, e), 1
  {
    hide Generate, Tracks;
    GenerateTracks(l, which, e, NO_PACKET, env);
  }

  lemma {:induction false} AuthTracks(l: Link, success: bool, env: Env)
    ensures Tracks(l, AuthNotify(l, success, env), env)
    decreases 3, 0
  {
    hide Raise, Tracks;
    if success {
      var m := EnterPhase(l, Network);
      TracksSame(l, m, env);
      RaiseTracks(m, IPCP, Open, env);
      var n := Raise(m, IPCP, Open, env);
      TracksThen(l, m, n, env);
      RaiseTracks(n, IPCP, Up, env);
      TracksThen(l, n, Raise(n, IPCP, Up, env), env);
    } else {
      var m := l.(reason := AuthFail);
      TracksSame(l, m, env);
      RaiseTracks(m, LCP, Close, env);
      TracksThen(l, m, Raise(m, LCP, Close, env), env);
    }
  }

  lemma {:induction false} DownTracks(l: Link, env: Env)
    ensures Tracks(l, LcpDownNotify(l, env), env)
    decreases 1, 0
  {
    hide Raise, Tracks;
    RaiseTracks(l, IPCP, Down, env);
    TracksSame(l, l, env);
    var m := if l.phase == Network || l.phase == LinkUp then Raise(l, IPCP, Down, env) else l;
    TracksSame(m, LcpDownNotify(l, env), env);
    TracksThen(l, m, LcpDownNotify(l, env), env);
  }

  lemma StimulateTracks(l: Link, which: Which, s: Stimulus, env: Env)
    ensures Tracks(l, Stimulate(l, which, s, env), env)
  {
    hide Cause, Generate, Tracks;
    var (c, e) := Cause(CpOf(l, which), s);
    var m := if which == LCP then l.(lcp := c) else l.(ipcp := c);
    TracksSame(l, m, env);
    if e.Some? {
      var p := if s.Receive? then s.packet else NO_PACKET;
      GenerateTracks(m, which, e.value, p, env);
      TracksThen(l, m, Generate(m, which, e.value, p, env), env);
    }
  }
}
