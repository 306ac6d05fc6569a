/** Bulk steps of a scan: content runs and blank runs taken at once. */
module Runs {
  import opened Dialect
  import opened Dfa
  import opened Records
  import opened Compiled

  /** The state's content bytes, which loop in place with output. */
  predicate InRun(c: Config, s: State, b: byte) {
    (s.InField? && !EndsRun(c, b)) || (s.InQuotedField? && !EndsQuotedRun(c, b))
  }

  /** A run of content bytes extends the open field by exactly those bytes. */
  lemma {:induction false} ContentRun(j: Job, p: nat, q: nat, bnd: nat, f: Flight, last: Option<nat>)
    requires j.cfg.Valid() && p <= q <= |j.data|
    requires forall i :: p <= i < q ==> InRun(j.cfg, f.state, j.data[i])
    ensures Scan(j, p, bnd, f, last) == Scan(j, q, bnd, f.(cur := f.cur + j.data[p..q]), last)
    decreases q - p
  {
    if p == q {
      assert f.cur + j.data[p..q] == f.cur;
    } else {
      var b := j.data[p];
      RunsAreContent(j.cfg, b);
      assert InRun(j.cfg, f.state, b);
      var g := f.(cur := f.cur + [b]);
      assert Step(j, f, p) == Go(g);
      ContentRun(j, p + 1, q, bnd, g, last);
      assert f.cur + [b] + j.data[p + 1..q] == f.cur + j.data[p..q];
    }
  }

  /** A run of blank lines either ends the pass on its first byte at or past the boundary, or vanishes. */
  lemma {:induction false} BlankRun(j: Job, p: nat, q: nat, bnd: nat, f: Flight, last: Option<nat>)
    requires p <= q <= |j.data| && f.state.RecordStart?
    requires forall i :: p <= i < q ==> j.cfg.IsTerm(j.data[i])
    ensures Scan(j, p, bnd, f, last) == if Max(bnd, p) < q then Ok([], Some(Max(bnd, p))) else Scan(j, q, bnd, f, last)
    decreases q - p
  {
    if p < q && p < bnd {
      BlankRun(j, p + 1, q, bnd, f, last);
    }
  }
}
