/** What the analysis loses by taking the interval 0..0 for "not seen yet", and when it does not
    matter. */
module Sentinel {
  import A = AArch64
  import opened Liveness
  import opened RegAllocTheorems
  import opened AllocSim

  // ---------- When the analysis is good enough ----------

  /** One register is touched before another is touched for the last time. */
  ghost predicate Before(b: A.Block, v: nat, w: nat) {
    exists i: nat, e: nat :: i < e && Touched(b, v, i) && Touched(b, w, e)
  }

  ghost predicate Meets(b: A.Block, v: nat, w: nat) {
    Before(b, v, w) && Before(b, w, v)
  }

  ghost predicate NextTouch(b: A.Block, v: nat, s: nat) {
    0 < s && Touched(b, v, s) && forall k: nat :: 0 < k && Touched(b, v, k) ==> s <= k
  }

  ghost predicate TouchedAfter(b: A.Block, v: nat, s: nat) {
    exists k: nat :: s < k && Touched(b, v, k)
  }

  /** Whatever meets a register of position 0 is still needed after that register's next touch. */
  ghost predicate Outlived(b: A.Block) {
    forall v: nat, w: nat, s: nat ::
      v != w && Touched(b, v, 0) && NextTouch(b, v, s) && Meets(b, v, w) ==> TouchedAfter(b, w, s)
  }

  lemma {:induction false} MeetingIsInterference(b: A.Block, v: nat, w: nat, p: LiveRange, q: LiveRange)
    requires ExactRange(b, v, p) && ExactRange(b, w, q)
    ensures Meets(b, v, w) <==> Interferes(p, q)
  {
    hide Touched;
  }

  /** How the interval of the analysis relates to the exact one. */
  lemma {:induction false} AnalyzedAgainstExact(b: A.Block, v: nat, p: LiveRange)
    requires ExactRange(b, v, p)
    ensures v in Analyzed(b) && Analyzed(b)[v].end == p.end
    ensures Analyzed(b)[v].start == p.start || (p.start == 0 && NextTouch(b, v, Analyzed(b)[v].start))
    ensures forall s: nat :: p.start == 0 && NextTouch(b, v, s) ==> Analyzed(b)[v].start == s
    ensures p.start == 0 && p.end > 0 ==> NextTouch(b, v, Analyzed(b)[v].start)
  {
    hide Touched, Analyzed;
    AnalyzeIsExact(b, v);
  }

  lemma {:induction false} AfterIsEnd(b: A.Block, w: nat, q: LiveRange, s: nat)
    requires ExactRange(b, w, q)
    ensures TouchedAfter(b, w, s) <==> q.end > s
  {
    hide Touched;
  }

  lemma {:induction false} SeparatesPair(b: A.Block, v: nat, w: nat, p: LiveRange, q: LiveRange)
    requires v != w && ExactRange(b, v, p) && ExactRange(b, w, q) && Interferes(p, q) && Outlived(b)
    ensures v in Analyzed(b) && w in Analyzed(b) && Interferes(Analyzed(b)[v], Analyzed(b)[w])
  {
    hide Touched, Analyzed, ExactRange, NextTouch, TouchedAfter, Meets;
    AnalyzedAgainstExact(b, v, p);
    AnalyzedAgainstExact(b, w, q);
    MeetingIsInterference(b, v, w, p, q);
    MeetingIsInterference(b, w, v, q, p);
    ExactTouches(b, v, p);
    ExactTouches(b, w, q);
    AfterIsEnd(b, w, q, Analyzed(b)[v].start);
    AfterIsEnd(b, v, p, Analyzed(b)[w].start);
  }

  lemma {:induction false} ExactTouches(b: A.Block, v: nat, p: LiveRange)
    requires ExactRange(b, v, p)
    ensures Touched(b, v, p.start) && p.start <= p.end
  {
    hide Touched;
  }

  /** The intervals of the analysis keep apart all registers that meet if and only if each register
      that meets the one of position 0 is still touched after that one's next touch. For the meaning
      of the block this is sufficient. */
  lemma {:induction false} AnalysisSeparatesExactly(b: A.Block)
    ensures Separates(Analyzed(b), b) <==> Outlived(b)
  {
    hide Touched, Analyzed, ExactLive, ExactRange, NextTouch, TouchedAfter, Meets, Covers;
    ExactLiveIsExact(b);
    var exact := ExactLive(b);
    if Separates(Analyzed(b), b) {
      forall v: nat, w: nat, s: nat | v != w && Touched(b, v, 0) && NextTouch(b, v, s) && Meets(b, v, w)
        ensures TouchedAfter(b, w, s)
      {
        NotOutlivedClash(b, v, w, s);
      }
    }
    if Outlived(b) {
      forall v | v in exact ensures v in Analyzed(b) {
        AnalyzedAgainstExact(b, v, exact[v]);
      }
      forall v, w | v in exact && w in exact && v != w && Interferes(exact[v], exact[w])
        ensures Interferes(Analyzed(b)[v], Analyzed(b)[w])
      {
        SeparatesPair(b, v, w, exact[v], exact[w]);
      }
    }
  }

  lemma {:induction false} NotOutlivedClash(b: A.Block, v: nat, w: nat, s: nat)
    requires Separates(Analyzed(b), b)
    requires v != w && Touched(b, v, 0) && NextTouch(b, v, s) && Meets(b, v, w)
    ensures TouchedAfter(b, w, s)
  {
    hide Touched, Analyzed, ExactLive, NextTouch, TouchedAfter, Covers;
    ExactLiveIsExact(b);
    var exact := ExactLive(b);
    MeetsTouches(b, v, w);
    MeetingIsInterference(b, v, w, exact[v], exact[w]);
    AnalyzedAgainstExact(b, v, exact[v]);
    AnalyzedAgainstExact(b, w, exact[w]);
    AfterIsEnd(b, w, exact[w], s);
  }

  lemma {:induction false} MeetsTouches(b: A.Block, v: nat, w: nat)
    requires Meets(b, v, w)
    ensures (exists k: nat :: Touched(b, v, k)) && (exists k: nat :: Touched(b, w, k))
  {
    hide Touched;
  }
}
