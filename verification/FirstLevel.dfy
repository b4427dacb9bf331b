/** The acknowledgement grammar of fsm/first_level.rl: its language, its machine, and what balances. */
module FirstLevel {

  datatype Event =
    | ForeignOk | ForeignNok      // FOREIGN_FRAME_LRC_OK, FOREIGN_FRAME_LRC_NOK
    | Ack | Nak                   // FOREIGN_ACK, FOREIGN_NAK
    | Timeout
    | Idempotent | Plain          // INTERNAL_IDEMPOTENT_FRAME, INTERNAL_FRAME

  // ----- the expressions of the grammar

  ghost predicate IsAckOrNak(w: seq<Event>) {
    w == [Ack] || w == [Nak, Ack]
  }

  ghost predicate IsForeign(w: seq<Event>) {
    w == [ForeignOk] || w == [ForeignNok]
  }

  ghost predicate IsPlain(w: seq<Event>) {
    w == [Plain, Ack] || w == [Plain, Nak, Ack]
  }

  /** Zero, one or two timeouts before the acknowledgement. */
  ghost predicate IsIdempotent(w: seq<Event>) {
    exists t, end ::
      && t in {[], [Timeout], [Timeout, Timeout]}
      && IsAckOrNak(end)
      && w == [Idempotent] + t + end
  }

  ghost predicate IsInternal(w: seq<Event>) {
    IsPlain(w) || IsIdempotent(w)
  }

  function Flatten(ws: seq<seq<Event>>): seq<Event> {
    if ws == [] then [] else ws[0] + Flatten(ws[1..])
  }

  /** `(foreign | internal)*` */
  ghost predicate Accepted(s: seq<Event>) {
    exists ws :: (forall w | w in ws :: IsForeign(w) || IsInternal(w)) && s == Flatten(ws)
  }

  // ----- the machine

  datatype State = Quiet | PlainSent | IdemSent | IdemSent1 | IdemSent2 | Naked | Error

  function Step(q: State, e: Event): State {
    match (q, e)
    case (Quiet, ForeignOk) => Quiet
    case (Quiet, ForeignNok) => Quiet
    case (Quiet, Plain) => PlainSent
    case (Quiet, Idempotent) => IdemSent
    case (PlainSent, Ack) => Quiet
    case (PlainSent, Nak) => Naked
    case (IdemSent, Timeout) => IdemSent1
    case (IdemSent1, Timeout) => IdemSent2
    case (IdemSent, Ack) => Quiet
    case (IdemSent1, Ack) => Quiet
    case (IdemSent2, Ack) => Quiet
    case (IdemSent, Nak) => Naked
    case (IdemSent1, Nak) => Naked
    case (IdemSent2, Nak) => Naked
    case (Naked, Ack) => Quiet
    case _ => Error
  }

  function Run(q: State, s: seq<Event>): State
    decreases |s|
  {
    if s == [] then q else Run(Step(q, s[0]), s[1..])
  }

  lemma {:induction false} RunConcat(q: State, a: seq<Event>, b: seq<Event>)
    ensures Run(q, a + b) == Run(Run(q, a), b)
    decreases |a|
  {
    if a == [] {
      assert a + b == b;
    } else {
      assert (a + b)[0] == a[0] && (a + b)[1..] == a[1..] + b;
      RunConcat(Step(q, a[0]), a[1..], b);
    }
  }

  lemma {:induction false} ErrorStays(s: seq<Event>)
    ensures Run(Error, s) == Error
    decreases |s|
  {
    if s != [] {
      ErrorStays(s[1..]);
    }
  }

  lemma RunStep(q: State, e: Event, rest: seq<Event>)
    ensures Run(q, [e] + rest) == Run(Step(q, e), rest)
    ensures Run(q, [e]) == Step(q, e)
  {
    assert ([e] + rest)[1..] == rest && [e][1..] == [];
  }

  lemma EndRuns(q: State, end: seq<Event>)
    requires q in {PlainSent, IdemSent, IdemSent1, IdemSent2} && IsAckOrNak(end)
    ensures Run(q, end) == Quiet
  {
    hide Run;
    if end == [Ack] {
      RunStep(q, Ack, []);
    } else {
      assert end == [Nak] + [Ack];
      RunStep(q, Nak, [Ack]);
      RunStep(Naked, Ack, []);
    }
  }

  lemma TimeoutsRun(t: seq<Event>)
    requires t in {[], [Timeout], [Timeout, Timeout]}
    ensures Run(IdemSent, t) in {IdemSent, IdemSent1, IdemSent2}
  {
    if t == [Timeout, Timeout] {
      assert t == [Timeout] + [Timeout];
      RunStep(IdemSent, Timeout, [Timeout]);
    }
    RunStep(IdemSent, Timeout, []);
    RunStep(IdemSent1, Timeout, []);
  }

  lemma WordRuns(w: seq<Event>)
    requires IsForeign(w) || IsInternal(w)
    ensures Run(Quiet, w) == Quiet
  {
    hide Run, IsAckOrNak;
    if IsIdempotent(w) {
      var t, end :| t in {[], [Timeout], [Timeout, Timeout]} && IsAckOrNak(end) && w == [Idempotent] + t + end;
      assert w == [Idempotent] + (t + end);
      RunStep(Quiet, Idempotent, t + end);
      RunConcat(IdemSent, t, end);
      TimeoutsRun(t);
      EndRuns(Run(IdemSent, t), end);
    } else if IsPlain(w) {
      PlainEnds(w);
      RunStep(Quiet, Plain, w[1..]);
      EndRuns(PlainSent, w[1..]);
    } else {
      RunStep(Quiet, w[0], []);
    }
  }

  lemma PlainEnds(w: seq<Event>)
    requires IsPlain(w)
    ensures w == [Plain] + w[1..] && IsAckOrNak(w[1..])
  {
  }

  lemma {:induction false} AcceptedRuns(ws: seq<seq<Event>>)
    requires forall w | w in ws :: IsForeign(w) || IsInternal(w)
    ensures Run(Quiet, Flatten(ws)) == Quiet
    decreases |ws|
  {
    if ws != [] {
      WordRuns(ws[0]);
      RunConcat(Quiet, ws[0], Flatten(ws[1..]));
      AcceptedRuns(ws[1..]);
    }
  }

  /** The first word of an input on which the machine comes back to rest. */
  lemma FirstWord(s: seq<Event>) returns (k: nat)
    requires s != [] && Run(Quiet, s) == Quiet
    ensures 0 < k <= |s| && (IsForeign(s[..k]) || IsInternal(s[..k]))
    ensures Run(Quiet, s[k..]) == Quiet
  {
    ErrorStays(s[1..]);
    if s[0] in {ForeignOk, ForeignNok} {
      k := 1;
      assert s[..1] == [s[0]];
    } else if s[0] == Plain {
      k := AckOrNak(s[1..], PlainSent);
      PlainWord(s, k);
      k := k + 1;
    } else {
      assert s[0] == Idempotent;
      k := IdempotentWord(s);
    }
  }

  lemma PlainWord(s: seq<Event>, k: nat)
    requires k < |s| && s[0] == Plain && IsAckOrNak(s[1..][..k])
    ensures IsPlain(s[..k + 1]) && s[1..][k..] == s[k + 1..]
  {
    assert s[..k + 1] == [Plain] + s[1..][..k];
  }

  lemma IdempotentWord(s: seq<Event>) returns (k: nat)
    requires s != [] && s[0] == Idempotent && Run(IdemSent, s[1..]) == Quiet
    ensures 0 < k <= |s| && IsIdempotent(s[..k]) && Run(Quiet, s[k..]) == Quiet
  {
    hide Run, IsAckOrNak;
    var n, m := TimeoutsThenEnd(s[1..], IdemSent);
    k := 1 + n + m;
    assert s[1..][n + m..] == s[k..];
    IdempotentParts(s, n, m);
  }

  lemma IdempotentParts(s: seq<Event>, n: nat, m: nat)
    requires 1 + n + m <= |s| && s[0] == Idempotent && n <= 2 && IsAckOrNak(s[1..][n..n + m])
    requires forall i | 0 <= i < n :: s[1..][i] == Timeout
    ensures IsIdempotent(s[..1 + n + m])
  {
    hide IsAckOrNak, IsIdempotent;
    var t, end := s[1..][..n], s[1..][n..n + m];
    assert t == if n == 0 then [] else if n == 1 then [Timeout] else [Timeout, Timeout];
    assert s[..1 + n + m] == [Idempotent] + t + end;
    IdempotentOf(t, end);
  }

  lemma IdempotentOf(t: seq<Event>, end: seq<Event>)
    requires t in {[], [Timeout], [Timeout, Timeout]} && IsAckOrNak(end)
    ensures IsIdempotent([Idempotent] + t + end)
  {
    hide IsAckOrNak;
  }

  lemma {:induction false} TimeoutsThenEnd(s: seq<Event>, q: State) returns (n: nat, m: nat)
    requires q in {IdemSent, IdemSent1, IdemSent2} && Run(q, s) == Quiet
    ensures n + (if q == IdemSent then 0 else if q == IdemSent1 then 1 else 2) <= 2
    ensures n + m <= |s| && (forall i | 0 <= i < n :: s[i] == Timeout)
    ensures IsAckOrNak(s[n..n + m]) && Run(Quiet, s[n + m..]) == Quiet
    decreases |s|
  {
    if s[0] == Timeout && q != IdemSent2 {
      n, m := TimeoutsThenEnd(s[1..], Step(q, Timeout));
      assert s[1..][n..n + m] == s[n + 1..n + 1 + m] && s[1..][n + m..] == s[n + 1 + m..];
      n := n + 1;
    } else {
      n := 0;
      m := AckOrNak(s, q);
      assert s[0..m] == s[..m];
    }
  }

  lemma AckOrNak(s: seq<Event>, q: State) returns (m: nat)
    requires q in {PlainSent, IdemSent, IdemSent1, IdemSent2} && Run(q, s) == Quiet
    requires s != [] ==> s[0] != Timeout || q in {PlainSent, IdemSent2}
    ensures m <= |s| && IsAckOrNak(s[..m]) && Run(Quiet, s[m..]) == Quiet
  {
    ErrorStays(s[1..]);
    if s[0] == Ack {
      m := 1;
      assert s[..1] == [Ack];
    } else {
      assert s[0] == Nak && Run(Naked, s[1..]) == Quiet;
      ErrorStays(s[1..][1..]);
      m := 2;
      assert s[1..][0] == Ack && s[1..][1..] == s[2..];
      assert s[..2] == [Nak, Ack];
    }
  }

  lemma {:induction false} SplitIntoWords(s: seq<Event>) returns (ws: seq<seq<Event>>)
    requires Run(Quiet, s) == Quiet
    ensures (forall w | w in ws :: IsForeign(w) || IsInternal(w)) && s == Flatten(ws)
    decreases |s|
  {
    if s == [] {
      ws := [];
    } else {
      var k := FirstWord(s);
      var rest := SplitIntoWords(s[k..]);
      ws := [s[..k]] + rest;
      assert ws[1..] == rest;
      assert s == s[..k] + s[k..];
    }
  }

  /** The machine accepts exactly the language of the grammar. */
  lemma MachineAcceptsTheGrammar(s: seq<Event>)
    ensures Accepted(s) <==> Run(Quiet, s) == Quiet
  {
    if Accepted(s) {
      var ws :| (forall w | w in ws :: IsForeign(w) || IsInternal(w)) && s == Flatten(ws);
      AcceptedRuns(ws);
    }
    if Run(Quiet, s) == Quiet {
      var ws := SplitIntoWords(s);
    }
  }

  // ----- conservation

  function Frames(s: seq<Event>): nat {
    multiset(s)[Plain] + multiset(s)[Idempotent]
  }

  function Acks(s: seq<Event>): nat {
    multiset(s)[Ack]
  }

  /** NAK and TIMEOUT events since the last internal frame. */
  function Troubles(s: seq<Event>): nat {
    if s == [] || s[|s| - 1] in {Plain, Idempotent} then 0
    else Troubles(s[..|s| - 1]) + if s[|s| - 1] in {Nak, Timeout} then 1 else 0
  }

  function Timeouts(s: seq<Event>): nat {
    if s == [] || s[|s| - 1] in {Plain, Idempotent} then 0
    else Timeouts(s[..|s| - 1]) + if s[|s| - 1] == Timeout then 1 else 0
  }

  /** The internal frame sent last. */
  function Last(s: seq<Event>): Event
  {
    if s == [] then ForeignOk
    else if s[|s| - 1] in {Plain, Idempotent} then s[|s| - 1]
    else Last(s[..|s| - 1])
  }

  /** What the machine's state knows of the events so far. */
  lemma {:induction false} StateKnows(s: seq<Event>)
    requires Run(Quiet, s) != Error
    ensures var q := Run(Quiet, s);
            && Frames(s) == Acks(s) + (if q == Quiet then 0 else 1)
            && (Last(s) == Plain ==> q in {Quiet, PlainSent, Naked} && Timeouts(s) == 0
                                     && Troubles(s) <= (if q == PlainSent then 0 else 1))
            && (Last(s) == Idempotent ==> q in {Quiet, IdemSent, IdemSent1, IdemSent2, Naked}
                                          && Troubles(s) <= match q
                                                            case IdemSent => 0
                                                            case IdemSent1 => 1
                                                            case IdemSent2 => 2
                                                            case _ => 3)
            && (Last(s) !in {Plain, Idempotent} ==> q == Quiet)
    decreases |s|
  {
    hide Run, Frames, Acks;
    RunNothing();
    if s != [] {
      var n := |s| - 1;
      assert s == s[..n] + [s[n]];
      RunConcat(Quiet, s[..n], [s[n]]);
      RunStep(Run(Quiet, s[..n]), s[n], []);
      Counted(s);
      StateKnows(s[..n]);
    }
  }

  lemma RunNothing()
    ensures Run(Quiet, []) == Quiet && Frames([]) == Acks([]) == 0
  {
  }

  lemma Counted(s: seq<Event>)
    requires s != []
    ensures var n := |s| - 1;
            && Frames(s) == Frames(s[..n]) + (if s[n] in {Plain, Idempotent} then 1 else 0)
            && Acks(s) == Acks(s[..n]) + (if s[n] == Ack then 1 else 0)
  {
    var n := |s| - 1;
    assert s == s[..n] + [s[n]];
  }

  lemma {:induction false} PrefixAlive(a: seq<Event>, b: seq<Event>)
    requires Run(Quiet, a + b) != Error
    ensures Run(Quiet, a) != Error
  {
    RunConcat(Quiet, a, b);
    if Run(Quiet, a) == Error {
      ErrorStays(b);
    }
  }

  /** Conservation: in an accepted sequence internal frames and acknowledgements are equal in number;
      in each of its prefixes they differ by at most one, while they differ no foreign frame arrives, an
      idempotent frame suffers at most three NAKs and timeouts, another at most one NAK and no timeout. */
  lemma AcknowledgementsConserved(s: seq<Event>, k: nat)
    requires Accepted(s) && k <= |s|
    ensures Frames(s) == Acks(s)
    ensures var p := s[..k];
            && Acks(p) <= Frames(p) <= Acks(p) + 1
            && (k < |s| && s[k] in {ForeignOk, ForeignNok, Plain, Idempotent} ==> Frames(p) == Acks(p))
            && (Last(p) == Idempotent ==> Troubles(p) <= 3)
            && (Last(p) == Plain ==> Troubles(p) <= 1 && Timeouts(p) == 0)
  {
    MachineAcceptsTheGrammar(s);
    StateKnows(s);
    assert s == s[..k] + s[k..];
    PrefixAlive(s[..k], s[k..]);
    StateKnows(s[..k]);
    if k < |s| {
      RunConcat(Quiet, s[..k], s[k..]);
      ErrorStays(s[k..][1..]);
    }
  }
}
