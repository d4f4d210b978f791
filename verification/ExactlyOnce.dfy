/** Which parameters give the reader every payload at most once. */
module ExactlyOnce {
  import opened Delivery
  import opened DrainOnce
  import opened Numbering
  import opened QueueDecoder
  import opened QueueRefinement
  import opened ReferenceRuns
  import opened Sets
  import opened Traffic

  /** `run` arrives in order, within reach, and hands over some payload twice. */
  ghost predicate Repeats(cfg: Config, s: Sender, run: seq<Idx>)
    requires Linked(cfg, s)
  {
    && AllSent(s, run) && InOrder(run) && InReach(s.par, s.paws, cfg.rxlimit, run)
    && !Distinct(HandedOver(s.par, cfg.rxlimit, Lively(s), run))
  }

  lemma {:induction false} GroupRepeats(cfg: Config, s: Sender, g: nat)
    requires Linked(cfg, s) && g in Lively(s) && s.par.parity >= s.par.data
    ensures Repeats(cfg, s, seq(2 * s.par.data, j requires j >= 0 => Idx(g, j)))
  {
    var run := seq(2 * s.par.data, j requires j >= 0 => Idx(g, j));
    assert AllSent(s, run);
    NearRunInReach(s.par, s.paws, cfg.rxlimit, run);
    HandedOverTwice(s.par, cfg.rxlimit, Lively(s), g, run);
  }

  /** Some arrivals in order hand a payload over twice exactly when there is at least as much
      parity as data (and anything to hand over at all). */
  lemma {:induction false} RepeatsIffParityReachesData(cfg: Config, s: Sender)
    requires Linked(cfg, s) && Lively(s) != {}
    ensures (exists run :: Repeats(cfg, s, run)) <==> s.par.parity >= s.par.data
  {
    if s.par.parity >= s.par.data {
      var g :| g in Lively(s);
      GroupRepeats(cfg, s, g);
    }
    if run :| Repeats(cfg, s, run) {
      if s.par.parity < s.par.data {
        HandsOverOnce(s.par, cfg.rxlimit, Lively(s), run);
      }
    }
  }
}
