/** The final decision on a flow: `ndpi_detection_giveup` and `ndpi_int_change_protocol`. */
module Giveup {

  const UNKNOWN := 0
  const BITTORRENT := 37
  const WHATSAPP_CALL := 45
  const STUN := 78
  const TLS := 91
  const FACEBOOK := 119
  const GOOGLE := 126
  const ZOOM := 189
  const HANGOUT_DUO := 201
  const FACEBOOK_VOIP := 268
  const SIGNAL_VOIP := 269

  const TCP := 6
  const UDP := 17

  datatype Confidence = NoConfidence | ByPort | ByIp | ByCache | ByDpi

  /** `upper` and `lower` are the two slots of the detected protocol stack. */
  datatype Flow = Flow(upper: nat, lower: nat, confidence: Confidence, guessed: nat, guessedHost: nat,
                       l4: nat, hello: bool, named: bool, stunPackets: bool, excluded: set<nat>)

  /** What the module's tables and caches answer. `reconciled` is what the last adjustment makes of an application. */
  datatype Oracle = Oracle(mining: nat, miningHit: bool, hasSubprotocols: nat -> bool, guessable: nat -> bool,
                           hostMatch: nat, bittorrent: bool, zoom: bool, reconciled: nat -> nat)

  /** Reconciliation replaces an application by another one, never by none. */
  ghost predicate Lawful(o: Oracle) {
    forall p: nat :: p != UNKNOWN ==> o.reconciled(p) != UNKNOWN
  }

  datatype Answer = Answer(master: nat, app: nat, wasGuessed: bool)

  // ---- The pieces, as functions ----

  /** `ndpi_int_change_protocol`. */
  function Change(f: Flow, o: Oracle, upper: nat, lower: nat, confidence: Confidence): Flow {
    var u := if upper == UNKNOWN && lower != UNKNOWN then lower else upper;
    var l := if u == lower then UNKNOWN else lower;
    if u != UNKNOWN && l == UNKNOWN && f.guessedHost != UNKNOWN && u != f.guessedHost && o.hasSubprotocols(u) then
      f.(upper := f.guessedHost, lower := u, confidence := confidence)
    else f.(upper := u, lower := l, confidence := confidence)
  }

  predicate IsCall(p: nat) {
    p == HANGOUT_DUO || p == FACEBOOK_VOIP || p == SIGNAL_VOIP || p == WHATSAPP_CALL
  }

  /** A guess the dissectors have discarded is dropped, for the protocols where that means something. */
  predicate Discarded(f: Flow, o: Oracle, p: nat) {
    p != UNKNOWN && f.l4 == UDP && p in f.excluded && o.guessable(p)
  }

  /** The guess of the `enable_guess` branch. */
  function Guess(f: Flow, o: Oracle): Flow {
    var f1 := if f.guessed == UNKNOWN && f.l4 == TCP && f.hello then f.(guessed := TLS) else f;
    var f2 := if Discarded(f1, o, f1.guessedHost) then f1.(guessedHost := UNKNOWN) else f1;
    var f3 := if Discarded(f2, o, f2.guessed) then f2.(guessed := UNKNOWN) else f2;
    if f3.guessed == UNKNOWN && f3.guessedHost == UNKNOWN then f3
    else
      var stun := f3.guessed == UNKNOWN && f3.stunPackets;
      var confidence := if stun then ByDpi else if f3.guessedHost != UNKNOWN then ByIp else ByPort;
      var lower := if stun then STUN else f3.guessed;
      var upper := if f3.named && o.hostMatch != UNKNOWN then o.hostMatch else f3.guessedHost;
      Change(f3, o, upper, lower, confidence)
  }

  /** The branches before the fallback; STUN has left before them. */
  function Attempt(f: Flow, o: Oracle, enable: bool): Flow {
    if IsCall(f.guessed) then Change(f, o, f.guessed, UNKNOWN, ByDpi)
    else if f.hello && f.named then Change(f, o, TLS, UNKNOWN, ByDpi)
    else if enable then Guess(f, o)
    else f
  }

  /** The block that copies the guesses into the stack when nothing is detected yet. */
  function Fallback(f: Flow, enable: bool): Flow {
    if f.upper == UNKNOWN && enable then
      var f1 := if f.guessed != UNKNOWN then f.(lower := f.guessed, confidence := ByPort) else f;
      var f2 := if f1.guessedHost != UNKNOWN then f1.(upper := f1.guessedHost, confidence := ByIp) else f1;
      if f2.lower == f2.upper && f2.lower != UNKNOWN then f2.(lower := f2.guessedHost, confidence := ByIp) else f2
    else f
  }

  function ExportStun(f: Flow, o: Oracle): Flow {
    Change(f, o, f.guessedHost, STUN, ByDpi)
  }

  function Decided(f: Flow, o: Oracle, enable: bool): Flow {
    if f.guessed == STUN then ExportStun(f, o)
    else
      var g := Fallback(Attempt(f, o, enable), enable);
      if g.upper == UNKNOWN && g.guessed == STUN then ExportStun(g, o) else g
  }

  /** What is returned once the stack is decided: voice over STUN, then the two caches, then reconciliation. */
  function Finish(f: Flow, o: Oracle): (Flow, nat, nat) {
    var app :=
      if f.lower == STUN && f.upper == FACEBOOK then FACEBOOK_VOIP
      else if f.lower == STUN && f.upper == GOOGLE then HANGOUT_DUO
      else f.upper;
    if f.lower == UNKNOWN && app == UNKNOWN && (o.bittorrent || (f.l4 == UDP && o.zoom)) then
      (f.(confidence := ByCache), UNKNOWN, o.reconciled(if o.bittorrent then BITTORRENT else ZOOM))
    else (f, f.lower, if app == UNKNOWN then UNKNOWN else o.reconciled(app))
  }

  function Final(f: Flow, o: Oracle, enable: bool): (Flow, nat, nat) {
    if f.upper != UNKNOWN then (f, f.lower, f.upper)
    else if o.miningHit then
      var g := Change(f, o, o.mining, UNKNOWN, ByCache);
      (g, g.lower, g.upper)
    else Finish(Decided(f, o, enable), o)
  }

  // ---- In place ----

  class Tracker {
    var flow: Flow

    constructor (flow: Flow)
      ensures this.flow == flow
    {
      this.flow := flow;
    }

    method SetDetected(o: Oracle, upper: nat, lower: nat, confidence: Confidence)
      modifies this
      ensures flow == Change(old(flow), o, upper, lower, confidence)
    {
      var u, l := upper, lower;
      if u == UNKNOWN && l != UNKNOWN {
        u := l;
      }
      if u == l {
        l := UNKNOWN;
      }
      if u != UNKNOWN && l == UNKNOWN {
        if flow.guessedHost != UNKNOWN && u != flow.guessedHost {
          if o.hasSubprotocols(u) {
            l := u;
            u := flow.guessedHost;
          }
        }
      }
      flow := flow.(upper := u, lower := l, confidence := confidence);
    }

    /** The `enable_guess` branch. */
    method GuessProtocol(o: Oracle) returns (wasGuessed: bool)
      modifies this
      ensures flow == Guess(old(flow), o)
      ensures wasGuessed ==> flow.upper != UNKNOWN
    {
      wasGuessed := false;
      if flow.guessed == UNKNOWN && flow.l4 == TCP && flow.hello {
        flow := flow.(guessed := TLS);
      }
      var guessed, host := flow.guessed, flow.guessedHost;
      if host != UNKNOWN && flow.l4 == UDP && host in flow.excluded && o.guessable(host) {
        host := UNKNOWN;
        flow := flow.(guessedHost := UNKNOWN);
      }
      if guessed != UNKNOWN && flow.l4 == UDP && guessed in flow.excluded && o.guessable(guessed) {
        guessed := UNKNOWN;
        flow := flow.(guessed := UNKNOWN);
      }
      if guessed != UNKNOWN || host != UNKNOWN {
        var confidence := ByPort;
        if host != UNKNOWN {
          confidence := ByIp;
        }
        if guessed == UNKNOWN && flow.stunPackets {
          guessed := STUN;
          confidence := ByDpi;
        }
        if flow.named {
          if o.hostMatch != UNKNOWN {
            host := o.hostMatch;
          }
        }
        wasGuessed := true;
        SetDetected(o, host, guessed, confidence);
      }
    }

    method FallBack(enable: bool) returns (acted: bool)
      modifies this
      ensures flow == Fallback(old(flow), enable)
      ensures acted ==> enable && (old(flow).guessed != UNKNOWN || old(flow).guessedHost != UNKNOWN) && old(flow).upper == UNKNOWN
    {
      acted := false;
      if flow.upper == UNKNOWN && enable {
        if flow.guessed != UNKNOWN {
          acted := true;
          flow := flow.(lower := flow.guessed, confidence := ByPort);
        }
        if flow.guessedHost != UNKNOWN {
          acted := true;
          flow := flow.(upper := flow.guessedHost, confidence := ByIp);
        }
        if flow.lower == flow.upper && flow.lower != UNKNOWN {
          acted := true;
          flow := flow.(lower := flow.guessedHost, confidence := ByIp);
        }
      }
    }

    method DetectionGiveup(o: Oracle, enable: bool) returns (r: Answer)
      requires Lawful(o)
      modifies this
      ensures (flow, r.master, r.app) == Final(old(flow), o, enable)
      ensures Settled(old(flow)) && r.master != UNKNOWN ==> r.app != UNKNOWN
      ensures old(flow).upper != UNKNOWN ==> flow == old(flow) && r == Answer(old(flow).lower, old(flow).upper, false)
      ensures old(flow).upper == UNKNOWN && !o.miningHit ==> (r.wasGuessed <==> r.app != UNKNOWN)
    {
      ghost var f := flow;
      if Settled(f) {
        FinalIsConsistent(f, o, enable);
      }
      var wasGuessed := false;
      if flow.upper != UNKNOWN {
        return Answer(flow.lower, flow.upper, false);
      }
      if o.miningHit {
        SetDetected(o, o.mining, UNKNOWN, ByCache);
        return Answer(flow.lower, flow.upper, false);
      }
      if flow.guessed == STUN {
        wasGuessed := true;
        SetDetected(o, flow.guessedHost, STUN, ByDpi);
      } else {
        if IsCall(flow.guessed) {
          wasGuessed := true;
          SetDetected(o, flow.guessed, UNKNOWN, ByDpi);
        } else if flow.hello && flow.named {
          wasGuessed := true;
          SetDetected(o, TLS, UNKNOWN, ByDpi);
        } else if enable {
          wasGuessed := GuessProtocol(o);
        }
        FallbackNeverActs(f, o, enable);
        var acted := FallBack(enable);
        wasGuessed := wasGuessed || acted;
        if flow.upper == UNKNOWN && flow.guessed == STUN {
          wasGuessed := true;
          SetDetected(o, flow.guessedHost, STUN, ByDpi);
        }
      }
      var master, app := flow.lower, flow.upper;
      if master == STUN {
        if app == FACEBOOK {
          app := FACEBOOK_VOIP;
        } else if app == GOOGLE {
          app := HANGOUT_DUO;
        }
      }
      if master == UNKNOWN && app == UNKNOWN {
        if o.bittorrent {
          app := BITTORRENT;
          flow := flow.(confidence := ByCache);
        } else if flow.l4 == UDP && o.zoom {
          app := ZOOM;
          flow := flow.(confidence := ByCache);
        }
      }
      if app != UNKNOWN {
        wasGuessed := true;
        app := o.reconciled(app);
      }
      r := Answer(master, app, wasGuessed);
    }
  }

  // ---- What is promised ----

  /** Changing the protocol never leaves a lower protocol under an empty upper slot. */
  lemma ChangeConsistent(f: Flow, o: Oracle, upper: nat, lower: nat, confidence: Confidence)
    ensures var g := Change(f, o, upper, lower, confidence);
            (g.upper == UNKNOWN ==> g.lower == UNKNOWN) && (g.upper == UNKNOWN <==> upper == UNKNOWN && lower == UNKNOWN)
  {
  }

  lemma GuessDetects(f: Flow, o: Oracle)
    requires f.upper == UNKNOWN
    ensures var g := Guess(f, o); g.upper == UNKNOWN ==> g.guessed == UNKNOWN && g.guessedHost == UNKNOWN && g.lower == f.lower
  {
  }

  /** On every path the fallback block finds nothing left to do. */
  lemma FallbackNeverActs(f: Flow, o: Oracle, enable: bool)
    requires f.upper == UNKNOWN && f.guessed != STUN
    ensures Fallback(Attempt(f, o, enable), enable) == Attempt(f, o, enable)
    ensures var g := Attempt(f, o, enable);
            g.upper == UNKNOWN && enable ==> g.guessed == UNKNOWN && g.guessedHost == UNKNOWN
  {
    GuessDetects(f, o);
  }

  /** The flows that cannot end up with a master alone: among them all whose empty upper slot has an empty lower one. */
  predicate Settled(f: Flow) {
    || (f.upper == UNKNOWN ==> f.lower == UNKNOWN)
    || f.guessed == STUN || IsCall(f.guessed) || (f.hello && f.named)
  }

  lemma DecidedConsistent(f: Flow, o: Oracle, enable: bool)
    requires f.upper == UNKNOWN && Settled(f)
    ensures var g := Decided(f, o, enable); g.upper == UNKNOWN ==> g.lower == UNKNOWN
  {
    if f.guessed != STUN {
      FallbackNeverActs(f, o, enable);
      GuessDetects(f, o);
    }
  }

  lemma FinalIsConsistent(f: Flow, o: Oracle, enable: bool)
    requires Lawful(o) && Settled(f)
    ensures var (g, master, app) := Final(f, o, enable); master != UNKNOWN ==> app != UNKNOWN
  {
    if f.upper == UNKNOWN && !o.miningHit {
      DecidedConsistent(f, o, enable);
    }
  }

  /** Nothing in the caches, nothing matched. */
  const SILENT := Oracle(0, false, _ => false, _ => false, 0, false, false, (p: nat) => p)

  /** Giving up never names a master without an application, whatever the caches answer, exactly for settled flows. */
  lemma ConsistentExactly(f: Flow)
    ensures (forall o, enable :: Lawful(o) ==> var (g, master, app) := Final(f, o, enable); master != UNKNOWN ==> app != UNKNOWN)
            <==> Settled(f)
  {
    if Settled(f) {
      forall o, enable | Lawful(o)
        ensures var (g, master, app) := Final(f, o, enable); master != UNKNOWN ==> app != UNKNOWN
      {
        FinalIsConsistent(f, o, enable);
      }
    } else {
      assert Lawful(SILENT);
      assert Final(f, SILENT, false) == (f, f.lower, UNKNOWN);
    }
  }

  // ---- Which guess becomes which protocol ----

  /** A protocol alone goes into the upper slot; but if it has subprotocols and another one was guessed
      from the host, that one is the application over it. */
  predicate Alone(g: Flow, f: Flow, o: Oracle, p: nat) {
    if f.guessedHost != 0 && f.guessedHost != p && o.hasSubprotocols(p) then g.upper == f.guessedHost && g.lower == p
    else g.upper == p && g.lower == 0
  }

  /** Two different protocols keep their places, one alone is the upper one, and nothing else is touched. */
  lemma ChangeExactly(f: Flow, o: Oracle, upper: nat, lower: nat, confidence: Confidence)
    ensures var g := Change(f, o, upper, lower, confidence);
            && (upper != 0 && lower != 0 && upper != lower ==> g.upper == upper && g.lower == lower)
            && (upper != 0 && (lower == 0 || lower == upper) ==> Alone(g, f, o, upper))
            && (upper == 0 && lower != 0 ==> Alone(g, f, o, lower))
            && (upper == 0 && lower == 0 ==> g.upper == 0 && g.lower == 0)
            && g == f.(upper := g.upper, lower := g.lower, confidence := confidence)
  {
  }

  /** The guess from the ports that is left: TLS for a client hello, nothing where the dissectors ruled it out. */
  function PortGuess(f: Flow, o: Oracle): nat {
    var p := if f.guessed == 0 && f.l4 == 6 && f.hello then 91 else f.guessed;
    if f.l4 == 17 && p in f.excluded && o.guessable(p) then 0 else p
  }

  function HostGuess(f: Flow, o: Oracle): nat {
    if f.l4 == 17 && f.guessedHost in f.excluded && o.guessable(f.guessedHost) then 0 else f.guessedHost
  }

  /**
   With a guess left, the one from the ports (or STUN for its packets) is the master, and the protocol of the
   host, by name before address, the application over it. The confidence says where the answer comes from.
   */
  lemma GuessExactly(f: Flow, o: Oracle)
    ensures var g, port, host := Guess(f, o), PortGuess(f, o), HostGuess(f, o);
            var master := if port == 0 && f.stunPackets then 78 else port;
            var app := if f.named && o.hostMatch != 0 then o.hostMatch else host;
            if port == 0 && host == 0 then g.upper == f.upper && g.lower == f.lower && g.confidence == f.confidence
            else
              && (app != 0 && master != 0 && app != master ==> g.upper == app && g.lower == master)
              && (app == 0 || master == 0 || app == master ==>
                    Alone(g, f.(guessedHost := host), o, if app == 0 then master else app))
              && (g.confidence == if port == 0 && f.stunPackets then ByDpi else if host != 0 then ByIp else ByPort)
  {
  }

  /** The answer for a flow of which only the stack remains to be read: calls over STUN have names of their own. */
  lemma AnswerOfStack(f: Flow, o: Oracle)
    requires f.upper != 0
    ensures var (g, master, app) := Finish(f, o);
            g == f && master == f.lower
            && app == o.reconciled(if f.lower == 78 && f.upper == 119 then 268
                                   else if f.lower == 78 && f.upper == 126 then 201 else f.upper)
  {
  }

  /** Of a flow nothing is known of, the caches are asked: BitTorrent first, then Zoom for UDP. */
  lemma AnswerOfCaches(f: Flow, o: Oracle)
    requires f.upper == 0 && f.lower == 0
    ensures var (g, master, app) := Finish(f, o);
            master == 0 &&
            if o.bittorrent then app == o.reconciled(37) && g == f.(confidence := ByCache)
            else if f.l4 == 17 && o.zoom then app == o.reconciled(189) && g == f.(confidence := ByCache)
            else app == 0 && g == f
  {
  }

  /** Which branch decides: mining before all others, then STUN, the calls, TLS for a named client hello, the guesses. */
  lemma DecisionExactly(f: Flow, o: Oracle, enable: bool)
    requires f.upper == 0
    ensures o.miningHit ==> var (g, master, app) := Final(f, o, enable);
              master == g.lower && app == g.upper && (o.mining != 0 ==> Alone(g, f, o, o.mining)) && g.confidence == ByCache
    ensures !o.miningHit ==> Final(f, o, enable) == Finish(Decided(f, o, enable), o)
    ensures var g := Decided(f, o, enable);
            if f.guessed == 78 then
              (if f.guessedHost != 0 && f.guessedHost != 78 then g.upper == f.guessedHost && g.lower == 78 else g.upper == 78 && g.lower == 0)
              && g.confidence == ByDpi
            else if f.guessed in {45, 201, 268, 269} then Alone(g, f, o, f.guessed) && g.confidence == ByDpi
            else if f.hello && f.named then Alone(g, f, o, 91) && g.confidence == ByDpi
            else g == if enable then Guess(f, o) else f
  {
    if f.guessed != STUN {
      FallbackNeverActs(f, o, enable);
    }
  }
}
