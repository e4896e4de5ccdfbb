/** Family-wise re-gating of the verdicts of one pre-registered family (gauntlet/forkb/gauntlet.py). */
module Family {
  import opened Arith
  import opened Permutations
  import opened Holm

  datatype Label = KnownFactor | Novel

  datatype Book = Pead | Nsi | Prof

  datatype Verdict =
    | Null
    | PromisingUnconfirmed
    | PromisingPendingInvestigation
    | Deploy(knownFactor: bool, pendingCostCalibration: bool)
    | OosFalsifiedNull

  /** The result record of one cell; `p` is None when the permutation null was not a number. */
  datatype Cell = Cell(
    p: Option<real>, permPass: bool, pRaw: Option<real>, pHolm: Option<real>, familySize: Option<nat>,
    econSig: bool, psrPassed: bool, p3Pass: bool, fullSeriesPass: bool, underpowered: bool,
    oosConfirms: bool, oosIndeterminate: bool, factorLabel: Label, book: Book, placeholderCost: bool,
    verdict: Verdict)

  function VerdictTerminal(fullSeriesPass: bool, m2Power: bool, oosConfirms: bool, oosIndeterminate: bool,
                           factorLabel: Label, book: Book, placeholderCost: bool): Verdict
  {
    if !fullSeriesPass then Null
    else if !m2Power then PromisingUnconfirmed
    else if oosConfirms then
      if book != Pead && factorLabel == Novel then PromisingPendingInvestigation
      else Deploy(factorLabel == KnownFactor, book != Pead && placeholderCost)
    else if oosIndeterminate then PromisingUnconfirmed
    else OosFalsifiedNull
  }

  function VerdictOf(c: Cell, fullSeriesPass: bool): Verdict {
    VerdictTerminal(fullSeriesPass, !c.underpowered, c.oosConfirms, c.oosIndeterminate, c.factorLabel, c.book,
                    c.placeholderCost)
  }

  /** What a run that reached its verdict leaves behind when the permutation threshold is `alpha`. */
  predicate Graded(c: Cell, alpha: real) {
    && c.p.Some?
    && c.permPass == (c.p.value <= alpha)
    && c.fullSeriesPass == (c.econSig && c.psrPassed && c.permPass && c.p3Pass)
    && c.verdict == VerdictOf(c, c.fullSeriesPass)
  }

  predicate HasPValues(cells: seq<Cell>) {
    forall i :: 0 <= i < |cells| ==> cells[i].p.Some?
  }

  function Raw(cells: seq<Cell>): seq<real>
    requires HasPValues(cells)
  {
    seq(|cells|, i requires 0 <= i < |cells| => cells[i].p.value)
  }

  predicate Correctable(cells: seq<Cell>) {
    HasPValues(cells) && Holm.Valid(Raw(cells))
  }

  /** One cell after the correction, given its adjusted p. */
  function Regate(c: Cell, adjusted: real, size: nat, alpha: real): Cell {
    var permPass := adjusted <= alpha;
    var full := c.econSig && c.psrPassed && permPass && c.p3Pass;
    c.(pRaw := c.p, pHolm := Some(adjusted), familySize := Some(size), permPass := permPass,
       fullSeriesPass := full, verdict := VerdictOf(c, full))
  }

  /** `after` is `before` re-gated on its closed-testing p-values. */
  ghost predicate IsCorrected(before: seq<Cell>, after: seq<Cell>, alpha: real) {
    && Correctable(before)
    && |after| == |before|
    && (forall i :: 0 <= i < |before| ==> after[i].pHolm.Some?)
    && (forall i: nat :: i < |before| ==> IsClosedTestP(Raw(before), i, after[i].pHolm.value))
    && (forall i :: 0 <= i < |before| ==> after[i] == Regate(before[i], after[i].pHolm.value, |before|, alpha))
  }

  ghost function Adjusted(before: seq<Cell>, after: seq<Cell>): seq<real>
    requires |after| == |before| && forall i :: 0 <= i < |before| ==> after[i].pHolm.Some?
  {
    seq(|before|, k requires 0 <= k < |before| => after[k].pHolm.value)
  }

  /** The rewriting loop of `apply_family_correction`: every record is re-gated on its corrected p. */
  method RegateInPlace(outs: array<Cell>, raw: seq<real>, adj: seq<real>, alpha: real)
    requires HasPValues(outs[..]) && raw == Raw(outs[..]) && |adj| == outs.Length
    modifies outs
    ensures forall i :: 0 <= i < outs.Length ==> outs[i] == Regate(old(outs[i]), adj[i], outs.Length, alpha)
  {
    for i := 0 to outs.Length
      invariant forall j :: i <= j < outs.Length ==> outs[j] == old(outs[j])
      invariant forall j :: 0 <= j < i ==> outs[j] == Regate(old(outs[j]), adj[j], outs.Length, alpha)
    {
      var o := outs[i].(pRaw := Some(raw[i]), pHolm := Some(adj[i]), familySize := Some(outs.Length));
      o := o.(permPass := adj[i] <= alpha);
      o := o.(fullSeriesPass := o.econSig && o.psrPassed && o.permPass && o.p3Pass);
      outs[i] := o.(verdict := VerdictTerminal(o.fullSeriesPass, !o.underpowered, o.oosConfirms, o.oosIndeterminate,
                                               o.factorLabel, o.book, o.placeholderCost));
    }
  }

  /** `apply_family_correction`: a bad p-value raises before any record is touched. */
  method ApplyFamilyCorrection(outs: array<Cell>, alpha: real) returns (ok: bool)
    modifies outs
    ensures ok <==> Correctable(old(outs[..]))
    ensures !ok ==> outs[..] == old(outs[..])
    ensures ok ==> IsCorrected(old(outs[..]), outs[..], alpha)
  {
    if !HasPValues(outs[..]) {
      return false;
    }
    var raw := Raw(outs[..]);
    var adj := HolmAdjustedPvalues(raw);
    if adj.InvalidPValues? {
      return false;
    }
    ghost var before := outs[..];
    RegateInPlace(outs, raw, adj.values, alpha);
    RegatedIsCorrected(before, outs[..], adj.values, alpha);
    ok := true;
  }

  lemma RegatedIsCorrected(before: seq<Cell>, after: seq<Cell>, adj: seq<real>, alpha: real)
    requires Correctable(before) && |after| == |before| && IsClosedTest(Raw(before), adj)
    requires forall i :: 0 <= i < |before| ==> after[i] == Regate(before[i], adj[i], |before|, alpha)
    ensures IsCorrected(before, after, alpha)
  {
  }

  /** The frozen verdict table, read back from a re-gated record. */
  lemma VerdictTable(before: seq<Cell>, after: seq<Cell>, alpha: real, i: nat)
    requires IsCorrected(before, after, alpha) && i < |before|
    ensures var c, v := after[i], after[i].verdict;
            var powered := c.fullSeriesPass && !c.underpowered;
            var investigate := c.book != Pead && c.factorLabel == Novel;
            && (c.fullSeriesPass <==> c.econSig && c.psrPassed && c.p3Pass && c.pHolm.value <= alpha)
            && (v == Null <==> !c.fullSeriesPass)
            && (v.Deploy? <==> powered && c.oosConfirms && !investigate)
            && (v.Deploy? ==> (v.knownFactor <==> c.factorLabel == KnownFactor)
                              && (v.pendingCostCalibration <==> c.book != Pead && c.placeholderCost))
            && (v == PromisingPendingInvestigation <==> powered && c.oosConfirms && investigate)
            && (v == OosFalsifiedNull <==> powered && !c.oosConfirms && !c.oosIndeterminate)
            && (v == PromisingUnconfirmed <==>
                c.fullSeriesPass && (c.underpowered || (!c.oosConfirms && c.oosIndeterminate)))
  {
  }

  /** Besides the gate and the verdict the record only gains its raw p, its adjusted p and the family's size. */
  lemma RecordKept(before: seq<Cell>, after: seq<Cell>, alpha: real, i: nat)
    requires IsCorrected(before, after, alpha) && i < |before|
    ensures var b, a := before[i], after[i];
            && a.pRaw == b.p == a.p && a.familySize == Some(|before|)
            && (a.permPass <==> a.pHolm.value <= alpha)
            && IsLargestBonferroni(Raw(before), i, a.pHolm.value)
            && a.econSig == b.econSig && a.psrPassed == b.psrPassed && a.p3Pass == b.p3Pass
            && a.underpowered == b.underpowered && a.oosConfirms == b.oosConfirms
            && a.oosIndeterminate == b.oosIndeterminate && a.factorLabel == b.factorLabel && a.book == b.book
            && a.placeholderCost == b.placeholderCost
  {
    ClosedTestOutright(Raw(before), i, after[i].pHolm.value);
  }

  lemma AdjustedIsClosedTest(before: seq<Cell>, after: seq<Cell>, alpha: real)
    requires IsCorrected(before, after, alpha)
    ensures IsClosedTest(Raw(before), Adjusted(before, after))
  {
  }

  /** At the cells' own threshold a correction can only turn a verdict into NULL, and says exactly when. */
  lemma VerdictKeptOrNulled(before: seq<Cell>, after: seq<Cell>, alpha: real, i: nat)
    requires IsCorrected(before, after, alpha) && i < |before|
    requires Graded(before[i], alpha)
    ensures after[i].verdict == if after[i].pHolm.value <= alpha then before[i].verdict else Null
    ensures before[i].p.value <= after[i].pHolm.value
    ensures Graded(after[i].(p := after[i].pHolm), alpha)
  {
    AdjustedIsMonotone(Raw(before), Adjusted(before, after), i, i);
  }

  /** `big` holds every cell of `small`, cell i of `small` standing at position place[i]. */
  ghost predicate Embeds(small: seq<real>, big: seq<real>, place: seq<nat>) {
    |place| == |small| && InRange(place, |big|) && Distinct(place)
    && forall i :: 0 <= i < |small| ==> big[place[i]] == small[i]
  }

  ghost function Image(place: seq<nat>, s: set<nat>): set<nat>
    requires Within(s, |place|)
  {
    set i | i in s :: place[i]
  }

  lemma {:induction false} ImageSize(place: seq<nat>, s: set<nat>)
    requires Within(s, |place|) && Distinct(place)
    ensures |Image(place, s)| == |s|
    decreases |s|
  {
    if s == {} {
      assert Image(place, s) == {};
    } else {
      var i :| i in s;
      ImageSize(place, s - {i});
      assert Image(place, s) == Image(place, s - {i}) + {place[i]};
    }
  }

  lemma EmbeddingKeepsBonferroni(small: seq<real>, big: seq<real>, place: seq<nat>, s: set<nat>)
    requires Embeds(small, big, place) && Within(s, |small|) && s != {}
    ensures Within(Image(place, s), |big|) && Image(place, s) != {}
    ensures Bonferroni(big, Image(place, s)) == Bonferroni(small, s)
  {
    var t := Image(place, s);
    ImageSize(place, s);
    assert t != {} by { assert |t| != 0; }
    var v, w := MinOver(small, s), MinOver(big, t);
    var i :| i in s && small[i] == v;
    assert place[i] in t && w <= v;
    var j :| j in t && big[j] == w;
    var k :| k in s && place[k] == j;
    assert v <= small[k];
  }

  /** Enlarging a family, in whatever order, never lowers the adjusted p of a cell it already had. */
  lemma LargerFamilyRaisesP(small: seq<real>, big: seq<real>, place: seq<nat>,
                            adjSmall: seq<real>, adjBig: seq<real>, i: nat)
    requires Embeds(small, big, place)
    requires IsClosedTest(small, adjSmall) && IsClosedTest(big, adjBig) && i < |small|
    ensures adjSmall[i] <= adjBig[place[i]]
  {
    assert IsClosedTestP(small, i, adjSmall[i]) && IsClosedTestP(big, place[i], adjBig[place[i]]);
    var s :| Within(s, |small|) && i in s && Bonferroni(small, s) == adjSmall[i];
    EmbeddingKeepsBonferroni(small, big, place, s);
    assert place[i] in Image(place, s);
  }

  lemma NullIsMonotone(c: Cell, a: real, b: real, m: nat, n: nat, alpha: real)
    requires a <= b && Regate(c, a, m, alpha).verdict == Null
    ensures Regate(c, b, n, alpha).verdict == Null
  {
  }

  /** A cell nulled in a family stays nulled in every larger family. */
  lemma NullSurvivesLargerFamily(small: seq<Cell>, smallAfter: seq<Cell>, big: seq<Cell>, bigAfter: seq<Cell>,
                                 place: seq<nat>, alpha: real, i: nat)
    requires IsCorrected(small, smallAfter, alpha) && IsCorrected(big, bigAfter, alpha)
    requires Embeds(Raw(small), Raw(big), place) && i < |small| && big[place[i]] == small[i]
    requires smallAfter[i].verdict == Null
    ensures bigAfter[place[i]].verdict == Null
  {
    AdjustedIsClosedTest(small, smallAfter, alpha);
    AdjustedIsClosedTest(big, bigAfter, alpha);
    LargerFamilyRaisesP(Raw(small), Raw(big), place, Adjusted(small, smallAfter), Adjusted(big, bigAfter), i);
    assert smallAfter[i] == Regate(small[i], smallAfter[i].pHolm.value, |small|, alpha);
    var j := place[i];
    assert bigAfter[j] == Regate(big[j], bigAfter[j].pHolm.value, |big|, alpha);
    NullIsMonotone(small[i], smallAfter[i].pHolm.value, bigAfter[place[i]].pHolm.value, |small|, |big|, alpha);
  }

  lemma CorrectionIsIdempotent(cells: seq<Cell>, once: seq<Cell>, twice: seq<Cell>, alpha: real)
    requires IsCorrected(cells, once, alpha) && IsCorrected(once, twice, alpha)
    ensures twice == once
  {
    assert Raw(once) == Raw(cells);
    forall i: nat | i < |cells| ensures twice[i] == once[i] {
      ClosedTestIsUnique(Raw(cells), i, once[i].pHolm.value, twice[i].pHolm.value);
    }
  }

  /** With a single cell the correction is vacuous. */
  lemma SingleCellUnchanged(cell: Cell, after: seq<Cell>, alpha: real)
    requires IsCorrected([cell], after, alpha) && Graded(cell, alpha)
    ensures after[0].pHolm == cell.p && after[0].verdict == cell.verdict
  {
    var p := Raw([cell]);
    assert IsClosedTestP(p, 0, after[0].pHolm.value);
    var s :| Within(s, |p|) && 0 in s && Bonferroni(p, s) == after[0].pHolm.value;
    assert s == {0};
    assert MinOver(p, {0}) == p[0];
  }
}
