/**
 * Particle and decay identity (tf_pwa/particle.py).
 *
 * A particle is identified by its name and a disambiguation index; equality,
 * hashing and `<` all use the pair (name, id).  The `Particle` value below IS
 * that pair, so Dafny's equality on it is the source's `__eq__`.  The spin and
 * parity a particle object also carries live in `ParticleGraph.BaseParticle`.
 */
module Particles {

  import opened Wrappers
  import Ordering

  datatype Particle = Particle(name: string, id: int)

  /** A two-body (or n-body) decay `core -> outs`; `outs` keeps the order given. */
  datatype Decay = Decay(core: Particle, outs: seq<Particle>)

  // ---------------------------------------------------------------------------
  // Orders: Python compares strings code point by code point, tuples
  // lexicographically.

  function CharLess(a: char, b: char): bool { a < b }

  function NameLess(a: string, b: string): bool
  {
    Ordering.LexLess(a, b, CharLess)
  }

  /** `BaseParticle.__lt__` between two particles: the tuple order on (name, id). */
  function ParticleLess(p: Particle, q: Particle): bool
  {
    NameLess(p.name, q.name) || (p.name == q.name && p.id < q.id)
  }

  lemma CharOrder()
    ensures Ordering.StrictTotalOrder(CharLess)
  {
  }

  lemma NameOrder()
    ensures Ordering.StrictTotalOrder(NameLess)
  {
    CharOrder();
    Ordering.LexStrictTotal(CharLess);
  }

  /** Particles are totally ordered by (name, id), so they can be sorted and used as keys. */
  lemma ParticleOrder()
    ensures Ordering.StrictTotalOrder(ParticleLess)
  {
    NameOrder();
    forall p, q, r | ParticleLess(p, q) && ParticleLess(q, r)
      ensures ParticleLess(p, r)
    {
    }
    forall p: Particle, q: Particle ensures p == q || ParticleLess(p, q) || ParticleLess(q, p) {
      assert NameLess(p.name, q.name) || NameLess(q.name, p.name) || p.name == q.name;
    }
  }

  function SortParticles(s: seq<Particle>): seq<Particle>
  {
    Ordering.Sort(s, ParticleLess)
  }

  // ---------------------------------------------------------------------------
  // Decimal integers as Python's `str(int)` writes them and `int(str)` reads them.

  predicate IsDigit(c: char) { '0' <= c <= '9' }

  function DigitChar(n: nat): char
    requires n < 10
  {
    ['0', '1', '2', '3', '4', '5', '6', '7', '8', '9'][n]
  }

  function DigitValue(c: char): nat
    requires IsDigit(c)
  {
    (c as int - '0' as int) as nat
  }

  /** The decimal digits of `n`, without leading zeros. */
  function NatToString(n: nat): (s: string)
    ensures |s| > 0 && AllDigits(s)
  {
    if n < 10 then [DigitChar(n)] else NatToString(n / 10) + [DigitChar(n % 10)]
  }

  /** `str(n)` for an int. */
  function IntToString(n: int): string
  {
    if n < 0 then "-" + NatToString(-n) else NatToString(n)
  }

  function DigitsValue(s: string): nat
    requires AllDigits(s)
  {
    if s == [] then 0 else DigitsValue(s[..|s| - 1]) * 10 + DigitValue(s[|s| - 1])
  }

  /** `int(s)` on a string: an optional sign followed by at least one decimal digit;
      anything else raises ValueError, here `None`. */
  function ParseInt(s: string): Option<int>
  {
    var sign := if |s| > 0 && (s[0] == '-' || s[0] == '+') then 1 else 0;
    var digits := s[sign..];
    if digits == [] || !AllDigits(digits) then None
    else
      var v: int := DigitsValue(digits);
      if sign == 1 && s[0] == '-' then Some(-v) else Some(v)
  }

  predicate AllDigits(s: string)
  {
    forall i :: 0 <= i < |s| ==> IsDigit(s[i])
  }

  lemma {:induction false} DigitsOfNat(n: nat)
    ensures DigitsValue(NatToString(n)) == n
  {
    var s := NatToString(n);
    if n >= 10 {
      DigitsOfNat(n / 10);
      assert s[..|s| - 1] == NatToString(n / 10);
    }
  }

  /** `int(str(n)) == n` for every integer. */
  lemma ParseIntToString(n: int)
    ensures ParseInt(IntToString(n)) == Some(n)
  {
    var m: nat := if n < 0 then -n else n;
    var d := NatToString(m);
    DigitsOfNat(m);
    ParseDigits(d);
    assert IntToString(n) == if n < 0 then "-" + d else d;
  }

  /** A digit string reads as its value, and as its negation after a '-'. */
  lemma ParseDigits(d: string)
    requires d != [] && AllDigits(d)
    ensures ParseInt(d) == Some(DigitsValue(d) as int)
    ensures ParseInt("-" + d) == Some(-(DigitsValue(d) as int))
  {
    assert IsDigit(d[0]);
    assert d[0..] == d;
    var m := "-" + d;
    assert m[0] == '-' && m[1..] == d;
  }


  /** `str` is injective on naturals. */
  lemma NatToStringInjective(m: nat, n: nat)
    requires NatToString(m) == NatToString(n)
    ensures m == n
  {
    DigitsOfNat(m);
    DigitsOfNat(n);
  }

  // ---------------------------------------------------------------------------
  // Names "name:id"

  /** Index of the last ':' in `s`, if any. */
  function LastColon(s: string): (r: Option<nat>)
    ensures r.Some? ==> r.value < |s| && s[r.value] == ':' && ':' !in s[r.value + 1..]
    ensures r.None? <==> ':' !in s
  {
    if s == [] then None
    else if s[|s| - 1] == ':' then Some(|s| - 1)
    else
      var r := LastColon(s[..|s| - 1]);
      assert s == s[..|s| - 1] + [s[|s| - 1]];
      r
  }

  /** `BaseParticle.set_name(name, id_)`.  Without an explicit id, `name.split(":")`
      keeps everything before the last ':' as the name and reads the rest as the id;
      when there is no ':' or the rest is not an integer, the whole string is the name
      and the id is 0. */
  function SetName(name: string, id: Option<int>): Particle
  {
    if id.Some? then Particle(name, id.value)
    else match LastColon(name)
      case None => Particle(name, 0)
      case Some(k) =>
        match ParseInt(name[k + 1..])
        case Some(n) => Particle(name[..k], n)
        case None => Particle(name, 0)
  }

  /** `BaseParticle.__repr__`: the bare name when the id is 0, otherwise "name:id". */
  function Repr(p: Particle): string
  {
    if p.id == 0 then p.name else p.name + ":" + IntToString(p.id)
  }

  /** Parsing the repr of a particle gives the particle back, unless its id is 0 and its
      name itself contains a ':' (then the name would be split). */
  lemma SetNameOfRepr(p: Particle)
    requires p.id != 0 || ':' !in p.name
    ensures SetName(Repr(p), None) == p
  {
    if p.id != 0 {
      var r := Repr(p);
      var digits := IntToString(p.id);
      assert ':' !in digits by {
        if p.id < 0 {
          assert digits == "-" + NatToString(-p.id);
        }
      }
      LastColonAfter(p.name, digits);
      assert r[|p.name| + 1..] == digits;
      assert r[..|p.name|] == p.name;
      ParseIntToString(p.id);
    }
  }

  lemma LastColonAfter(name: string, rest: string)
    requires ':' !in rest
    ensures LastColon(name + ":" + rest) == Some(|name|)
  {
    var s := name + ":" + rest;
    assert s[|name|] == ':';
  }

  /** A name without ':' is kept whole with id 0; a name "n:k" with an integer k splits. */
  lemma SetNameExamples()
    ensures SetName("D0", None) == Particle("D0", 0)
    ensures SetName("R:2", None) == Particle("R", 2)
    ensures SetName("a:b:-3", None) == Particle("a:b", -3)
    ensures SetName("K:x", None) == Particle("K:x", 0)
    ensures SetName("K:x", Some(4)) == Particle("K:x", 4)
  {
    SetNameInteger();
    SetNameNegative();
    SetNameNotInteger();
  }

  lemma SetNameInteger()
    ensures SetName("D0", None) == Particle("D0", 0)
    ensures SetName("R:2", None) == Particle("R", 2)
  {
    assert LastColon("R:2") == Some(1);
    assert "R:2"[2..] == "2";
    assert ParseInt("2") == Some(2) by {
      assert DigitsValue("2") == DigitsValue("") * 10 + DigitValue('2');
    }
  }

  lemma SetNameNegative()
    ensures SetName("a:b:-3", None) == Particle("a:b", -3)
  {
    assert LastColon("a:b:-3") == Some(3) by {
      assert LastColon("a:b:-") == Some(3);
    }
    assert "a:b:-3"[4..] == "-" + "3" && "a:b:-3"[..3] == "a:b";
    assert DigitsValue("3") == DigitsValue("") * 10 + DigitValue('3');
    ParseDigits("3");
    SetNameSplits("a:b:-3", 3);
  }

  lemma SetNameSplits(name: string, k: nat)
    requires LastColon(name) == Some(k) && ParseInt(name[k + 1..]).Some?
    ensures SetName(name, None) == Particle(name[..k], ParseInt(name[k + 1..]).value)
  {
  }

  lemma SetNameNotInteger()
    ensures SetName("K:x", None) == Particle("K:x", 0)
    ensures SetName("K:x", Some(4)) == Particle("K:x", 4)
  {
    assert LastColon("K:x") == Some(1);
    assert "K:x"[2..] == "x";
    assert !IsDigit('x');
  }


  // ---------------------------------------------------------------------------
  // Decay identity

  /** `BaseDecay.get_id`: the core and the daughters in sorted order. */
  function DecayId(d: Decay): (Particle, seq<Particle>)
  {
    (d.core, SortParticles(d.outs))
  }

  /** `BaseDecay.__eq__` (and `__hash__`): equality of `get_id`. */
  predicate DecayEq(a: Decay, b: Decay)
  {
    DecayId(a) == DecayId(b)
  }

  /** Two decays are equal exactly when they have the same core and the same daughters,
      counted with multiplicity, whatever the order the daughters were given in. */
  lemma DecayEqIff(a: Decay, b: Decay)
    ensures DecayEq(a, b) <==> a.core == b.core && multiset(a.outs) == multiset(b.outs)
  {
    if a.core == b.core && multiset(a.outs) == multiset(b.outs) {
      ParticleOrder();
      Ordering.SortByMultiset(a.outs, b.outs, ParticleLess);
    }
    if DecayEq(a, b) {
      Ordering.SortPermutes(a.outs, ParticleLess);
      Ordering.SortPermutes(b.outs, ParticleLess);
    }
  }
}
