/** What a connection becomes as a stream of octets is read and its sentences are handled. */
module Reception {
  import opened Octets
  import opened Lexing
  import opened SentenceCodec
  import Requests
  import M = Multiplexer
  import Runs = MultiplexerRuns

  /** What the end of the reader, if any, does to the connection. */
  ghost function Finish(m: M.Mux, stopped: bool, why: Reason): M.Mux {
    if !stopped || !m.link.Open? then m
    else if why == Rejected then M.OnError(m, M.MessageSize)
    else m.(link := M.Aborted)
  }

  /** The sentences but the first `from` are handled; outcomes(i) is what the callback does with the ith. */
  ghost function Hear(m: M.Mux, ss: seq<Sentence>, from: nat, outcomes: nat -> M.Outcome): M.Mux {
    if |ss| <= from then m
    else M.Next(Hear(m, ss[..|ss| - 1], from, outcomes), M.Respond(ss[|ss| - 1], outcomes(|ss| - 1)))
  }

  /** Everything read off a stream is handled, and then the end of the reader. */
  ghost function Absorb(m: M.Mux, p: Scan, from: nat, outcomes: nat -> M.Outcome): M.Mux {
    Finish(Hear(m, p.done, from, outcomes), p.stopped, p.why)
  }

  lemma HearOne(m: M.Mux, ss: seq<Sentence>, s: Sentence, from: nat, outcomes: nat -> M.Outcome)
    requires from <= |ss|
    ensures Hear(m, ss + [s], from, outcomes) == M.Next(Hear(m, ss, from, outcomes), M.Respond(s, outcomes(|ss|)))
  {
    assert (ss + [s])[..|ss|] == ss;
  }

  /** A connection that has ended ignores the rest of the stream. */
  lemma {:induction false} DeafAfterEnd(
      m: M.Mux, ss: seq<Sentence>, more: seq<Sentence>, from: nat, outcomes: nat -> M.Outcome)
    requires from <= |ss| && !Hear(m, ss, from, outcomes).link.Open?
    ensures Hear(m, ss + more, from, outcomes) == Hear(m, ss, from, outcomes)
  {
    if more == [] {
      assert ss + more == ss;
    } else {
      var init, last := more[..|more| - 1], more[|more| - 1];
      DeafAfterEnd(m, ss, init, from, outcomes);
      HearOne(m, ss + init, last, from, outcomes);
      assert ss + init + [last] == ss + more;
    }
  }

  lemma AbsorbEnded(mode: Delivery, m: M.Mux, a: Octets, b: Octets, from: nat, outcomes: nat -> M.Outcome)
    requires from <= |Parse(mode, a).done| && !Absorb(m, Parse(mode, a), from, outcomes).link.Open?
    ensures Absorb(m, Parse(mode, a + b), from, outcomes) == Absorb(m, Parse(mode, a), from, outcomes)
  {
    ParseGrows(mode, a, b);
    var p, q := Parse(mode, a), Parse(mode, a + b);
    if !p.stopped {
      assert q.done == p.done + q.done[|p.done|..];
      DeafAfterEnd(m, p.done, q.done[|p.done|..], from, outcomes);
    }
  }

  /** How the reading of a stream ends a connection, written out in full. */
  lemma EndIsSpelled(m: M.Mux, p: Scan, from: nat, outcomes: nat -> M.Outcome)
    ensures var n := Hear(m, p.done, from, outcomes);
      Absorb(m, p, from, outcomes) ==
        if !p.stopped || !n.link.Open? then n
        else if p.why == Rejected then
          n.(link := M.Shut, books := n.books.(log := n.books.log + [Requests.Reported(M.MessageSize)]))
        else n.(link := M.Aborted)
  {
  }

  // ----- as a run of the multiplexer -----

  ghost function HearSteps(ss: seq<Sentence>, from: nat, outcomes: nat -> M.Outcome): seq<M.Step> {
    if |ss| <= from then []
    else HearSteps(ss[..|ss| - 1], from, outcomes) + [M.Respond(ss[|ss| - 1], outcomes(|ss| - 1))]
  }

  lemma {:induction false} HearIsRun(m: M.Mux, ss: seq<Sentence>, from: nat, outcomes: nat -> M.Outcome)
    ensures Hear(m, ss, from, outcomes) == M.Run(m, HearSteps(ss, from, outcomes))
  {
    if |ss| > from {
      var steps := HearSteps(ss, from, outcomes);
      HearIsRun(m, ss[..|ss| - 1], from, outcomes);
      assert steps[..|steps| - 1] == HearSteps(ss[..|ss| - 1], from, outcomes);
    }
  }

  /** The step that ends the reader, which only an open connection notices. */
  ghost function FinishSteps(open: bool, p: Scan): seq<M.Step> {
    if !p.stopped || !open then []
    else if p.why == Rejected then [M.ReadFailed(M.MessageSize)]
    else [M.Abort]
  }

  lemma FinishIsRun(m: M.Mux, p: Scan)
    ensures Finish(m, p.stopped, p.why) == M.Run(m, FinishSteps(m.link.Open?, p))
  {
    if p.stopped && m.link.Open? {
      Runs.RunOne(m, FinishSteps(true, p)[0]);
    }
  }

  /** Reading a stream is a run, so all that holds of every run holds of a connection that reads one. */
  lemma AbsorbIsRun(m: M.Mux, p: Scan, from: nat, outcomes: nat -> M.Outcome)
    ensures var n := Hear(m, p.done, from, outcomes);
      Absorb(m, p, from, outcomes) == M.Run(m, HearSteps(p.done, from, outcomes) + FinishSteps(n.link.Open?, p))
  {
    var n := Hear(m, p.done, from, outcomes);
    HearIsRun(m, p.done, from, outcomes);
    FinishIsRun(n, p);
    Runs.RunAppend(m, HearSteps(p.done, from, outcomes), FinishSteps(n.link.Open?, p));
  }

  lemma AbsorbIsReached(m: M.Mux, p: Scan, from: nat, outcomes: nat -> M.Outcome)
    requires Runs.Reached(m)
    ensures Runs.Reached(Absorb(m, p, from, outcomes))
  {
    var n := Hear(m, p.done, from, outcomes);
    AbsorbIsRun(m, p, from, outcomes);
    Runs.ReachedRun(m, HearSteps(p.done, from, outcomes) + FinishSteps(n.link.Open?, p));
  }

  lemma {:induction false} HearKeepsWire(m: M.Mux, ss: seq<Sentence>, from: nat, outcomes: nat -> M.Outcome)
    ensures Hear(m, ss, from, outcomes).books.wire == m.books.wire
  {
    if |ss| > from {
      var init := ss[..|ss| - 1];
      HearKeepsWire(m, init, from, outcomes);
      Runs.WireNext(Hear(m, init, from, outcomes), M.Respond(ss[|ss| - 1], outcomes(|ss| - 1)));
    }
  }

  lemma AbsorbKeepsWire(m: M.Mux, p: Scan, from: nat, outcomes: nat -> M.Outcome)
    ensures Absorb(m, p, from, outcomes).books.wire == m.books.wire
  {
    HearKeepsWire(m, p.done, from, outcomes);
  }
}
