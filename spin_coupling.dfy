/**
 * L-S coupling of a two-body decay A -> B C (tf_pwa/particle.py):
 * `GetA2BC_LS_list`, the `Decay` accessors built on it, the names of the
 * coupling parameters and the layout of the Clebsch-Gordan matrix.
 *
 * Spins are whole numbers: the source iterates over them with `range`.
 * A parity is `None` when the particle does not declare one.
 */
module SpinCoupling {

  import opened Wrappers
  import opened Particles
  import opened ParticleGraph
  import MixedRadix
  import Ordering

  /** An (l, s) pair: orbital angular momentum and total spin of B and C. */
  type LS = (nat, nat)

  function Abs(x: int): nat { if x < 0 then -x else x }

  /** Parity conservation is imposed only when all three parities are known
      and the decay does not allow it to be broken. */
  predicate ParityChecked(pa: Option<int>, pb: Option<int>, pc: Option<int>, pBreak: bool)
  {
    !pBreak && pa.Some? && pb.Some? && pc.Some?
  }

  /** The parity of l that conservation demands: even when pa * pb * pc == 1. */
  function RequiredParity(pa: int, pb: int, pc: int): nat
  {
    if pa * pb * pc == 1 then 0 else 1
  }

  /** (l, s) is an allowed coupling: s within the triangle of jb and jc, l within
      the triangle of ja and s, and l of the required parity when parity is checked. */
  predicate Allowed(ja: nat, jb: nat, jc: nat, pa: Option<int>, pb: Option<int>, pc: Option<int>,
                    pBreak: bool, l: int, s: int)
  {
    && Abs(jb - jc) <= s <= jb + jc
    && Abs(ja - s) <= l <= ja + s
    && (ParityChecked(pa, pb, pc, pBreak) ==> l % 2 == RequiredParity(pa.value, pb.value, pc.value))
  }

  /** The order of the output: by s, then by l. */
  function LSBefore(x: LS, y: LS): bool
  {
    x.1 < y.1 || (x.1 == y.1 && x.0 < y.0)
  }

  lemma LSOrder()
    ensures Ordering.StrictTotalOrder(LSBefore)
  {
  }

  /** `r` lists exactly the allowed couplings, each once, by increasing s then l. */
  ghost predicate IsLSList(r: seq<LS>, ja: nat, jb: nat, jc: nat, pa: Option<int>, pb: Option<int>,
                           pc: Option<int>, pBreak: bool)
  {
    && (forall k :: 0 <= k < |r| ==> Allowed(ja, jb, jc, pa, pb, pc, pBreak, r[k].0, r[k].1))
    && (forall l: nat, s: nat :: Allowed(ja, jb, jc, pa, pb, pc, pBreak, l, s) ==> (l, s) in r)
    && Ordering.StrictlySorted(r, LSBefore)
  }

  /** The description above determines the list: there is only one such list. */
  lemma LSListUnique(r1: seq<LS>, r2: seq<LS>, ja: nat, jb: nat, jc: nat, pa: Option<int>,
                     pb: Option<int>, pc: Option<int>, pBreak: bool)
    requires IsLSList(r1, ja, jb, jc, pa, pb, pc, pBreak)
    requires IsLSList(r2, ja, jb, jc, pa, pb, pc, pBreak)
    ensures r1 == r2
  {
    LSOrder();
    forall x | x in r1 ensures x in r2 {
      var k :| 0 <= k < |r1| && r1[k] == x;
    }
    forall x | x in r2 ensures x in r1 {
      var k :| 0 <= k < |r2| && r2[k] == x;
    }
    Ordering.StrictlySortedUnique(r1, r2, LSBefore);
  }

  /** `GetA2BC_LS_list(ja, jb, jc, pa, pb, pc, p_break)`. */
  method GetA2BCLSList(ja: nat, jb: nat, jc: nat, pa: Option<int>, pb: Option<int>, pc: Option<int>,
                       pBreak: bool)
    returns (ret: seq<LS>)
    ensures IsLSList(ret, ja, jb, jc, pa, pb, pc, pBreak)
  {
    var checked := ParityChecked(pa, pb, pc, pBreak);
    var dl := if checked then RequiredParity(pa.value, pb.value, pc.value) else 0;
    var sMin, sMax := Abs(jb - jc), jb + jc;
    ret := [];
    var s := sMin;
    while s <= sMax
      invariant sMin <= s <= sMax + 1
      invariant forall k :: 0 <= k < |ret| ==>
        Allowed(ja, jb, jc, pa, pb, pc, pBreak, ret[k].0, ret[k].1) && ret[k].1 < s
      invariant forall l: nat, s': nat :: Allowed(ja, jb, jc, pa, pb, pc, pBreak, l, s') && s' < s ==> (l, s') in ret
      invariant Ordering.StrictlySorted(ret, LSBefore)
    {
      ret := AddOrbitals(ret, ja, jb, jc, pa, pb, pc, pBreak, s, checked, dl);
      s := s + 1;
    }
  }

  /** The inner loop for total spin `s`: every allowed `l` from |ja - s| to ja + s. */
  method AddOrbitals(ret0: seq<LS>, ja: nat, jb: nat, jc: nat, pa: Option<int>, pb: Option<int>, pc: Option<int>,
                     pBreak: bool, s: nat, checked: bool, dl: int)
    returns (ret: seq<LS>)
    requires checked == ParityChecked(pa, pb, pc, pBreak)
    requires dl == if checked then RequiredParity(pa.value, pb.value, pc.value) else 0
    requires Abs(jb - jc) <= s <= jb + jc
    requires forall k :: 0 <= k < |ret0| ==>
      Allowed(ja, jb, jc, pa, pb, pc, pBreak, ret0[k].0, ret0[k].1) && ret0[k].1 < s
    requires forall l: nat, s': nat :: Allowed(ja, jb, jc, pa, pb, pc, pBreak, l, s') && s' < s ==> (l, s') in ret0
    requires Ordering.StrictlySorted(ret0, LSBefore)
    ensures forall k :: 0 <= k < |ret| ==>
      Allowed(ja, jb, jc, pa, pb, pc, pBreak, ret[k].0, ret[k].1) && ret[k].1 < s + 1
    ensures forall l: nat, s': nat :: Allowed(ja, jb, jc, pa, pb, pc, pBreak, l, s') && s' < s + 1 ==> (l, s') in ret
    ensures Ordering.StrictlySorted(ret, LSBefore)
  {
    ret := ret0;
    var l := Abs(ja - s);
    while l <= ja + s
      invariant Abs(ja - s) <= l <= ja + s + 1
      invariant forall k :: 0 <= k < |ret| ==>
        Allowed(ja, jb, jc, pa, pb, pc, pBreak, ret[k].0, ret[k].1) && LSBefore(ret[k], (l, s))
      invariant forall l': nat, s': nat :: Allowed(ja, jb, jc, pa, pb, pc, pBreak, l', s') && LSBefore((l', s'), (l, s)) ==> (l', s') in ret
      invariant Ordering.StrictlySorted(ret, LSBefore)
    {
      if !checked || l % 2 == dl {
        SortedSnoc(ret, (l, s));
        ret := ret + [(l, s)];
      }
      l := l + 1;
    }
  }

  lemma SortedSnoc(ret: seq<LS>, x: LS)
    requires Ordering.StrictlySorted(ret, LSBefore)
    requires forall k :: 0 <= k < |ret| ==> LSBefore(ret[k], x)
    ensures Ordering.StrictlySorted(ret + [x], LSBefore)
    ensures forall y :: y in ret ==> y in ret + [x]
  {
  }

  // ---------------------------------------------------------------------------
  // Parity rule

  /** (-1)^l */
  function MinusOnePow(l: nat): int
  {
    if l == 0 then 1 else -MinusOnePow(l - 1)
  }

  lemma {:induction false} MinusOnePowParity(l: nat)
    ensures MinusOnePow(l) == if l % 2 == 0 then 1 else -1
  {
    if l > 0 {
      MinusOnePowParity(l - 1);
    }
  }

  /** The parity test on l is parity conservation pa == pb * pc * (-1)^l. */
  lemma ParityRule(pa: int, pb: int, pc: int, l: nat)
    requires pa == 1 || pa == -1
    requires pb == 1 || pb == -1
    requires pc == 1 || pc == -1
    ensures l % 2 == RequiredParity(pa, pb, pc) <==> pa == pb * pc * MinusOnePow(l)
  {
    MinusOnePowParity(l);
  }

  /** A (J=1, P=-1) -> B (0, -1) C (0, +1): only l = 1, s = 0 fits the triangles,
      and conservation wants even l, so there is no coupling; with P_A = +1 or with
      parity broken, (1, 0) is the only one.  By `LSListUnique` these are the only
      lists meeting the description. */
  lemma LSListExamples()
    ensures IsLSList([], 1, 0, 0, Some(-1), Some(-1), Some(1), false)
    ensures IsLSList([(1, 0)], 1, 0, 0, Some(1), Some(-1), Some(1), false)
    ensures IsLSList([(1, 0)], 1, 0, 0, Some(-1), Some(-1), Some(1), true)
  {
  }

  // ---------------------------------------------------------------------------
  // Decay accessors

  /** `Decay.get_ls_list` for the decay `core -> outs` with its `p_break` flag: the
      couplings of the core with the first two daughters; fewer than two daughters
      is an IndexError. */
  method DecayLSList(core: BaseParticle, outs: seq<BaseParticle>, pBreak: bool) returns (r: Result<seq<LS>>)
    ensures r.Err? <==> |outs| < 2
    ensures r.Ok? ==> IsLSList(r.value, core.J, outs[0].J, outs[1].J, core.P, outs[0].P, outs[1].P, pBreak)
  {
    if |outs| < 2 {
      return Err(IndexError("tuple index out of range"));
    }
    var ls := GetA2BCLSList(core.J, outs[0].J, outs[1].J, core.P, outs[0].P, outs[1].P, pBreak);
    r := Ok(ls);
  }

  /** `Decay.get_l_list`: the l of every pair, in order. */
  function LList(ls: seq<LS>): (r: seq<nat>)
    ensures |r| == |ls|
    ensures forall k :: 0 <= k < |ls| ==> r[k] == ls[k].0
  {
    if ls == [] then [] else [ls[0].0] + LList(ls[1..])
  }

  /** `Decay.get_min_l`: `min` of the l list, a ValueError when it is empty. */
  function MinL(ls: seq<LS>): (r: Result<nat>)
    ensures r.Ok? <==> ls != []
    ensures r.Ok? ==> r.value in LList(ls)
    ensures r.Ok? ==> forall k :: 0 <= k < |ls| ==> r.value <= ls[k].0
  {
    if ls == [] then Err(ValueError("min() arg is an empty sequence"))
    else if |ls| == 1 then Ok(ls[0].0)
    else
      var rest := MinL(ls[1..]);
      assert LList(ls) == [ls[0].0] + LList(ls[1..]);
      if ls[0].0 <= rest.value then Ok(ls[0].0) else Ok(rest.value)
  }

  // ---------------------------------------------------------------------------
  // Parameter names

  /** "{name}_l{l}_s{s}_{part}" */
  function ParamName(name: string, x: LS, part: char): string
  {
    name + "_l" + NatToString(x.0) + "_s" + NatToString(x.1) + "_" + [part]
  }

  /** `Decay.generate_params(name)`: a real and an imaginary part name per coupling. */
  function GenerateParams(name: string, ls: seq<LS>): (r: seq<(string, string)>)
    ensures |r| == |ls|
    ensures forall k :: 0 <= k < |ls| ==> r[k] == (ParamName(name, ls[k], 'r'), ParamName(name, ls[k], 'i'))
  {
    if ls == [] then [] else [(ParamName(name, ls[0], 'r'), ParamName(name, ls[0], 'i'))] + GenerateParams(name, ls[1..])
  }

  /** Two digit strings, each followed by a non-digit: equal concatenations split equally. */
  lemma DigitsSplit(a: string, x: string, b: string, y: string)
    requires AllDigits(a) && AllDigits(b)
    requires x != [] && y != [] && !IsDigit(x[0]) && !IsDigit(y[0])
    requires a + x == b + y
    ensures a == b && x == y
  {
    assert forall i :: 0 <= i < |a| ==> (a + x)[i] == a[i];
    assert forall i :: 0 <= i < |x| ==> (a + x)[|a| + i] == x[i];
    assert forall i :: 0 <= i < |b| ==> (b + y)[i] == b[i];
    assert forall i :: 0 <= i < |y| ==> (b + y)[|b| + i] == y[i];
    if |a| == |b| {
      assert a == (a + x)[..|a|] && b == (b + y)[..|b|];
      assert x == (a + x)[|a|..] && y == (b + y)[|b|..];
    }
  }

  /** A parameter name determines its coupling and its part. */
  lemma ParamNameInjective(name: string, x: LS, p: char, y: LS, q: char)
    requires ParamName(name, x, p) == ParamName(name, y, q)
    ensures x == y && p == q
  {
    var a1, a2 := NatToString(x.0), NatToString(y.0);
    var b1, b2 := NatToString(x.1), NatToString(y.1);
    var u1, u2 := "_" + [p], "_" + [q];
    var t1, t2 := "_s" + (b1 + u1), "_s" + (b2 + u2);
    ParamNameShape(name, x, p);
    ParamNameShape(name, y, q);
    CancelPrefix(name + "_l", a1 + t1, a2 + t2);
    DigitsSplit(a1, t1, a2, t2);
    NatToStringInjective(x.0, y.0);
    CancelPrefix("_s", b1 + u1, b2 + u2);
    DigitsSplit(b1, u1, b2, u2);
    NatToStringInjective(x.1, y.1);
    CancelPrefix("_", [p], [q]);
  }

  lemma ParamNameShape(name: string, x: LS, p: char)
    ensures ParamName(name, x, p) == (name + "_l") + (NatToString(x.0) + ("_s" + (NatToString(x.1) + ("_" + [p]))))
  {
  }

  lemma CancelPrefix<T>(pre: seq<T>, u: seq<T>, v: seq<T>)
    requires pre + u == pre + v
    ensures u == v
  {
    assert u == (pre + u)[|pre|..];
    assert v == (pre + v)[|pre|..];
  }

  /** Distinct couplings give distinct parameter names: all 2 * |ls| names differ. */
  lemma GenerateParamsDistinct(name: string, ls: seq<LS>)
    requires Ordering.Distinct(ls)
    ensures var r := GenerateParams(name, ls);
      && (forall i, j :: 0 <= i < |r| && 0 <= j < |r| ==> r[i].0 != r[j].1)
      && (forall i, j :: 0 <= i < j < |r| ==> r[i].0 != r[j].0 && r[i].1 != r[j].1)
  {
    var r := GenerateParams(name, ls);
    forall i, j | 0 <= i < |r| && 0 <= j < |r| ensures r[i].0 != r[j].1 {
      if r[i].0 == r[j].1 {
        ParamNameInjective(name, ls[i], 'r', ls[j], 'i');
      }
    }
    forall i, j | 0 <= i < j < |r| ensures r[i].0 != r[j].0 && r[i].1 != r[j].1 {
      if r[i].0 == r[j].0 {
        ParamNameInjective(name, ls[i], 'r', ls[j], 'r');
      }
      if r[i].1 == r[j].1 {
        ParamNameInjective(name, ls[i], 'i', ls[j], 'i');
      }
    }
  }

  /** The couplings of a decay are distinct, so the names `generate_params` gives them are. */
  lemma CouplingParamsDistinct(name: string, r: seq<LS>, ja: nat, jb: nat, jc: nat, pa: Option<int>,
                               pb: Option<int>, pc: Option<int>, pBreak: bool)
    requires IsLSList(r, ja, jb, jc, pa, pb, pc, pBreak)
    ensures var ps := GenerateParams(name, r);
      && (forall i, j :: 0 <= i < |ps| && 0 <= j < |ps| ==> ps[i].0 != ps[j].1)
      && (forall i, j :: 0 <= i < j < |ps| ==> ps[i].0 != ps[j].0 && ps[i].1 != ps[j].1)
  {
    LSOrder();
    GenerateParamsDistinct(name, r);
  }

  // ---------------------------------------------------------------------------
  // Layout of the Clebsch-Gordan matrix

  /** A cell of `get_cg_matrix`: zero until filled, then the coefficient of coupling
      (l, s) for the helicities (lambda_b, lambda_c).  The coefficient's value, a product
      of Clebsch-Gordan coefficients, is not part of this model. */
  datatype CgEntry = Zero | Coef(l: nat, s: nat, lambdaB: int, lambdaC: int)

  /** Row `row` holds the helicity pair with index `row` in the order
      lambda_b = -jb .. jb (outer), lambda_c = -jc .. jc (inner). */
  function HelicityOfRow(jb: nat, jc: nat, row: nat): (int, int)
  {
    var w := 2 * jc + 1;
    (row / w - jb, row % w - jc)
  }

  /** Position `a * w + b` of a two-digit index with digits a < h and b < w. */
  lemma RowIndex(a: nat, b: nat, w: nat, h: nat)
    requires a < h && b < w
    ensures a * w + b < h * w
    ensures (a * w + b) / w == a && (a * w + b) % w == b
  {
    MixedRadix.MulStep(h, a, w);
    var k := a * w + b;
    var q, r := k / w, k % w;
    assert k == q * w + r && 0 <= r < w;
    if q > a {
      MixedRadix.MulStep(q, a, w);
    } else if q < a {
      MixedRadix.MulStep(a, q, w);
    }
  }

  /** Every row carries a helicity pair in range, and different rows carry different pairs. */
  lemma HelicityOfRowRange(jb: nat, jc: nat, row: nat, row': nat)
    requires row < (2 * jb + 1) * (2 * jc + 1) && row' < (2 * jb + 1) * (2 * jc + 1)
    ensures var (lb, lc) := HelicityOfRow(jb, jc, row); -(jb as int) <= lb <= jb && -(jc as int) <= lc <= jc
    ensures row != row' ==> HelicityOfRow(jb, jc, row) != HelicityOfRow(jb, jc, row')
  {
    var w := 2 * jc + 1;
    MixedRadix.DivBelow(row, 2 * jb + 1, w);
    MixedRadix.DivBelow(row', 2 * jb + 1, w);
  }

  function CgCell(ls: seq<LS>, jb: nat, jc: nat, row: nat, col: nat): CgEntry
    requires col < |ls|
  {
    var (lb, lc) := HelicityOfRow(jb, jc, row);
    Coef(ls[col].0, ls[col].1, lb, lc)
  }

  /** `Decay.get_cg_matrix` for spins jb, jc of the daughters and coupling list `ls`:
      a (2jb+1)(2jc+1) x |ls| matrix, column i for coupling ls[i], row j for the
      j-th helicity pair. */
  method CgMatrix(jb: nat, jc: nat, ls: seq<LS>) returns (ret: array2<CgEntry>)
    ensures fresh(ret)
    ensures ret.Length0 == (2 * jb + 1) * (2 * jc + 1) && ret.Length1 == |ls|
    ensures forall j, i :: 0 <= j < ret.Length0 && 0 <= i < ret.Length1 ==> ret[j, i] == CgCell(ls, jb, jc, j, i)
  {
    var w := 2 * jc + 1;
    var n := (2 * jb + 1) * w;
    ret := new CgEntry[n, |ls|]((_, _) => Zero);
    for i := 0 to |ls|
      invariant forall j', i' :: 0 <= j' < n && 0 <= i' < |ls| ==>
        ret[j', i'] == if i' < i then CgCell(ls, jb, jc, j', i') else Zero
    {
      FillColumn(ret, jb, jc, ls, i);
    }
  }

  /** Column `i` of the matrix: one coefficient per helicity pair, `lb` slowest. */
  method FillColumn(ret: array2<CgEntry>, jb: nat, jc: nat, ls: seq<LS>, i: nat)
    modifies ret
    requires i < |ls| && ret.Length0 == (2 * jb + 1) * (2 * jc + 1) && ret.Length1 == |ls|
    requires forall j', i' :: 0 <= j' < ret.Length0 && 0 <= i' < |ls| ==>
      ret[j', i'] == if i' < i then CgCell(ls, jb, jc, j', i') else Zero
    ensures forall j', i' :: 0 <= j' < ret.Length0 && 0 <= i' < |ls| ==>
      ret[j', i'] == if i' <= i then CgCell(ls, jb, jc, j', i') else Zero
  {
    var w := 2 * jc + 1;
    var base := 0;
    for lb: int := -(jb as int) to jb + 1
      invariant base == (lb + jb) * w
      invariant forall j', i' :: 0 <= j' < ret.Length0 && 0 <= i' < |ls| ==>
        ret[j', i'] == if i' < i || (i' == i && j' < base) then CgCell(ls, jb, jc, j', i') else Zero
    {
      FillRows(ret, jb, jc, ls, i, lb, base);
      NextBase(lb + jb, w);
      base := base + w;
    }
  }

  lemma NextBase(a: int, w: int)
    ensures (a + 1) * w == a * w + w
  {
  }

  /** The rows of column `i` whose first helicity is `lb`: rows `base` to `base + 2jc`. */
  method FillRows(ret: array2<CgEntry>, jb: nat, jc: nat, ls: seq<LS>, i: nat, lb: int, base: nat)
    modifies ret
    requires i < |ls| && ret.Length0 == (2 * jb + 1) * (2 * jc + 1) && ret.Length1 == |ls|
    requires -(jb as int) <= lb <= jb && base == (lb + jb) * (2 * jc + 1)
    requires forall j', i' :: 0 <= j' < ret.Length0 && 0 <= i' < |ls| ==>
      ret[j', i'] == if i' < i || (i' == i && j' < base) then CgCell(ls, jb, jc, j', i') else Zero
    ensures forall j', i' :: 0 <= j' < ret.Length0 && 0 <= i' < |ls| ==>
      ret[j', i'] == if i' < i || (i' == i && j' < base + (2 * jc + 1)) then CgCell(ls, jb, jc, j', i') else Zero
  {
    var w := 2 * jc + 1;
    var (l, s) := ls[i];
    var j := base;
    for lc: int := -(jc as int) to jc + 1
      invariant j == base + (lc + jc)
      invariant forall j', i' :: 0 <= j' < ret.Length0 && 0 <= i' < |ls| ==>
        ret[j', i'] == if i' < i || (i' == i && j' < j) then CgCell(ls, jb, jc, j', i') else Zero
    {
      RowIndex(lb + jb, lc + jc, w, 2 * jb + 1);
      ret[j, i] := Coef(l, s, lb, lc);
      j := j + 1;
    }
  }


}
