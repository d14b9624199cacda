/** `_common_divisor_weight` and `to_repeated_list` of awp/playlist.py:
    flatten a playlist into a list where each path occurs in proportion to
    its weight. */
module RepeatedLists {
  import opened Wrappers
  import opened Errors
  import opened PlaylistFormat

  const BRUTE_LIMIT: real := 1000.0

  /** `int(x) == x` */
  predicate IsWhole(x: real) {
    x.Floor as real == x
  }

  /** `is_divisor(n)`: `x % n == 0` for every weight. */
  predicate DividesAll(n: real, ws: seq<real>)
    requires n != 0.0
  {
    forall i :: 0 <= i < |ws| ==> IsWhole(ws[i] / n)
  }

  /** `is_divisor(k)` for a whole candidate `k`. */
  predicate IntDivides(k: int, ws: seq<real>) {
    k != 0 && DividesAll(k as real, ws)
  }

  predicate AllWhole(ws: seq<real>) {
    forall i :: 0 <= i < |ws| ==> IsWhole(ws[i])
  }

  /** The weights with zeros left out (`set(...) - {0}`; repeats do not matter here). */
  function NonZero(ws: seq<real>): (r: seq<real>)
    ensures forall i :: 0 <= i < |r| ==> r[i] != 0.0 && r[i] in ws
    ensures forall w :: w in ws && w != 0.0 ==> w in r
  {
    if ws == [] then []
    else
      assert forall w :: w in ws ==> w == ws[0] || w in ws[1..];
      (if ws[0] != 0.0 then [ws[0]] else []) + NonZero(ws[1..])
  }

  function Min(ws: seq<real>): (m: real)
    requires ws != []
    ensures m in ws && forall i :: 0 <= i < |ws| ==> m <= ws[i]
  {
    if |ws| == 1 then ws[0]
    else
      var rest := Min(ws[1..]);
      assert forall i :: 1 <= i < |ws| ==> ws[i] == ws[1..][i - 1];
      if ws[0] <= rest then ws[0] else rest
  }

  /** The weight of every entry, in entry order. */
  function Weights(m: Entries): (ws: seq<real>)
    requires m.Valid()
    ensures |ws| == |m.keys| && forall i :: 0 <= i < |ws| ==> ws[i] == m.vals[m.keys[i]].weight
  {
    seq(|m.keys|, i requires 0 <= i < |m.keys| => m.vals[m.keys[i]].weight)
  }

  /** `_common_divisor_weight` as written, for integer-typed weights: the
      brute-force loop asserts right after its first candidate fails. */
  function CommonDivisorAsWritten(ws: seq<real>): Result<real, Error> {
    var nz := NonZero(ws);
    if nz == [] then Err(EmptyMin)
    else
      var mn := Min(nz);
      if DividesAll(mn, nz) then Ok(mn)
      else if AllWhole(nz) && mn < BRUTE_LIMIT then
        if mn - 1.0 > 0.0 then
          if DividesAll(mn - 1.0, nz) then Ok(mn - 1.0) else Err(DivisorAssertion)
        else Err(NoCommonDivisor)
      else Err(NoCommonDivisor)
  }

  /** Weights 4 and 6: the minimum 4 does not divide 6, the first candidate
      3 divides neither, and the assertion fires although 2 divides both. */
  lemma AsWrittenAssertsOnFourAndSix()
    ensures CommonDivisorAsWritten([4.0, 6.0]) == Err(DivisorAssertion)
    ensures IntendedDivisor([4.0, 6.0]) == Ok(2.0)
  {
    FourAndSixShape();
    FourAndSixDivisors();
    assert SearchDown([4.0, 6.0], 3) == Some(2);
  }

  lemma FourAndSixShape()
    ensures NonZero([4.0, 6.0]) == [4.0, 6.0] && Min([4.0, 6.0]) == 4.0 && AllWhole([4.0, 6.0])
  {
    assert [4.0, 6.0][1..] == [6.0];
    assert [6.0][1..] == [];
  }

  lemma FourAndSixDivisors()
    ensures !DividesAll(4.0, [4.0, 6.0]) && !DividesAll(3.0, [4.0, 6.0]) && DividesAll(2.0, [4.0, 6.0])
    ensures 4.0.Floor - 1 == 3 && 4.0 - 1.0 == 3.0
  {
    var ws := [4.0, 6.0];
    assert ws[0] == 4.0 && ws[1] == 6.0;
    assert !IsWhole(ws[1] / 4.0);
    assert !IsWhole(ws[0] / 3.0);
    assert IsWhole(ws[0] / 2.0) && IsWhole(ws[1] / 2.0);
  }

  /** The intended brute-force search: the first whole candidate from `n`
      down to 1 that divides every weight. */
  function SearchDown(nz: seq<real>, n: int): (r: Option<int>)
    ensures r.Some? ==> 0 < r.value <= n && IntDivides(r.value, nz)
    ensures r.Some? ==> forall k: int :: r.value < k <= n ==> !IntDivides(k, nz)
    ensures r.None? ==> forall k: int :: 0 < k <= n ==> !IntDivides(k, nz)
    decreases n
  {
    if n <= 0 then None
    else if IntDivides(n, nz) then Some(n)
    else SearchDown(nz, n - 1)
  }

  /** `_common_divisor_weight` as its docstring intends: the minimum when it
      divides all, otherwise for whole weights the greatest whole number below
      the minimum that does. */
  function IntendedDivisor(ws: seq<real>): Result<real, Error> {
    var nz := NonZero(ws);
    if nz == [] then Err(EmptyMin)
    else
      var mn := Min(nz);
      if DividesAll(mn, nz) then Ok(mn)
      else if AllWhole(nz) && mn < BRUTE_LIMIT then
        match SearchDown(nz, mn.Floor - 1)
        case Some(k) => Ok(k as real)
        case None => Err(NoCommonDivisor)
      else Err(NoCommonDivisor)
  }

  /** A returned divisor divides every non-zero weight; the minimum is
      returned when it divides all; nothing between the answer and the
      minimum divides all; for whole weights with a positive minimum under
      the limit something is always found. */
  lemma IntendedDivisorProperties(ws: seq<real>)
    ensures NonZero(ws) == [] <==> IntendedDivisor(ws) == Err(EmptyMin)
    ensures IntendedDivisor(ws).Ok? ==> IntendedDivisor(ws).value != 0.0 && DividesAll(IntendedDivisor(ws).value, NonZero(ws))
    ensures NonZero(ws) != [] && DividesAll(Min(NonZero(ws)), NonZero(ws)) ==> IntendedDivisor(ws) == Ok(Min(NonZero(ws)))
    ensures NonZero(ws) != [] && AllWhole(NonZero(ws)) && 0.0 < Min(NonZero(ws)) < BRUTE_LIMIT ==> IntendedDivisor(ws).Ok?
    ensures IntendedDivisor(ws).Ok? ==> forall k: int :: IntendedDivisor(ws).value < k as real < Min(NonZero(ws)) ==> !IntDivides(k, NonZero(ws))
    ensures IntendedDivisor(ws).Err? ==> IntendedDivisor(ws).error in {EmptyMin, NoCommonDivisor}
  {
    var nz := NonZero(ws);
    if nz != [] {
      var mn := Min(nz);
      if !DividesAll(mn, nz) && AllWhole(nz) && mn < BRUTE_LIMIT {
        var r := SearchDown(nz, mn.Floor - 1);
        assert mn.Floor as real == mn;
        if r.None? {
          ExhaustedSearch(nz, mn);
        }
      }
    }
  }

  /** The corrected search differs from the code as written only where the
      code raises AssertionError: every other result, a divisor or an
      error, is the same. */
  lemma AgreesUnlessAsserting(ws: seq<real>)
    requires CommonDivisorAsWritten(ws) != Err(DivisorAssertion)
    ensures IntendedDivisor(ws) == CommonDivisorAsWritten(ws)
  {
    var nz := NonZero(ws);
    if nz != [] {
      var mn := Min(nz);
      if !DividesAll(mn, nz) && AllWhole(nz) && mn < BRUTE_LIMIT {
        assert mn.Floor as real == mn;
        assert (mn.Floor - 1) as real == mn - 1.0;
      }
    }
  }

  /** The search loop of `_common_divisor_weight`, with the candidate that
      fails continuing to the next instead of asserting. */
  method CommonDivisor(ws: seq<real>) returns (r: Result<real, Error>)
    ensures r == IntendedDivisor(ws)
  {
    var nz := NonZero(ws);
    if nz == [] {
      return Err(EmptyMin);
    }
    var mn := Min(nz);
    if DividesAll(mn, nz) {
      return Ok(mn);
    }
    if AllWhole(nz) && mn < BRUTE_LIMIT {
      var n: int := mn.Floor - 1;
      while n > 0
        invariant SearchDown(nz, n) == SearchDown(nz, mn.Floor - 1)
        decreases n
      {
        if IntDivides(n, nz) {
          return Ok(n as real);
        }
        n := n - 1;
      }
    }
    return Err(NoCommonDivisor);
  }

  /** A search that found no candidate down to 1 started from a minimum
      that is not positive: 1 divides whole weights. */
  lemma ExhaustedSearch(ws: seq<real>, mn: real)
    requires AllWhole(ws) && mn in ws && mn != 0.0 && !DividesAll(mn, ws)
    requires forall k: int :: 0 < k && k as real < mn ==> !IntDivides(k, ws)
    ensures mn <= 0.0
  {
    OneDividesWhole(ws);
    assert IntDivides(1, ws);
  }

  lemma OneDividesWhole(ws: seq<real>)
    requires AllWhole(ws)
    ensures DividesAll(1.0, ws)
  {
  }

  /** `int(x)`: truncation toward zero. */
  function Trunc(x: real): int {
    if x >= 0.0 then x.Floor else -((-x).Floor)
  }

  /** How many times `[path] * int(weight / scale)` repeats the path. */
  function Copies(weight: real, scale: real): nat
    requires scale != 0.0
  {
    var t := Trunc(weight / scale);
    if t < 0 then 0 else t
  }

  function Repeat(p: Path, n: nat): (r: seq<Path>)
    ensures |r| == n && forall i :: 0 <= i < n ==> r[i] == p
  {
    seq(n, _ => p)
  }

  /** The repeated list for the entries `ks` of `vals`, in order. */
  function RepeatedFrom(ks: seq<Path>, vals: map<Path, Entry>, scale: real): seq<Path>
    requires scale != 0.0 && forall k :: k in ks ==> k in vals
  {
    if ks == [] then [] else Repeat(ks[0], Copies(vals[ks[0]].weight, scale)) + RepeatedFrom(ks[1..], vals, scale)
  }

  /** One step of the walk over `ks`, at index `i`. */
  lemma RepeatedFromStep(ks: seq<Path>, i: nat, vals: map<Path, Entry>, scale: real)
    requires i < |ks| && scale != 0.0 && forall k :: k in ks ==> k in vals
    ensures RepeatedFrom(ks[i..], vals, scale)
      == Repeat(ks[i], Copies(vals[ks[i]].weight, scale)) + RepeatedFrom(ks[i + 1..], vals, scale)
  {
    assert ks[i..][0] == ks[i] && ks[i..][1..] == ks[i + 1..];
  }

  function Count(s: seq<Path>, p: Path): nat {
    if s == [] then 0 else (if s[0] == p then 1 else 0) + Count(s[1..], p)
  }

  lemma {:induction false} CountAppend(s: seq<Path>, t: seq<Path>, p: Path)
    ensures Count(s + t, p) == Count(s, p) + Count(t, p)
  {
    if s == [] {
      assert s + t == t;
    } else {
      assert (s + t)[1..] == s[1..] + t;
      CountAppend(s[1..], t, p);
    }
  }

  lemma {:induction false} CountRepeat(q: Path, n: nat, p: Path)
    ensures Count(Repeat(q, n), p) == if q == p then n else 0
  {
    if n > 0 {
      assert Repeat(q, n)[1..] == Repeat(q, n - 1);
      CountRepeat(q, n - 1, p);
    }
  }

  /** Each path of a playlist occurs `int(weight / scale)` times (none when
      that is negative), and no other path occurs. */
  lemma {:induction false} RepeatedCounts(ks: seq<Path>, vals: map<Path, Entry>, scale: real, p: Path)
    requires scale != 0.0 && forall k :: k in ks ==> k in vals
    requires OrderedMaps.Distinct(ks)
    ensures Count(RepeatedFrom(ks, vals, scale), p) == if p in ks then Copies(vals[p].weight, scale) else 0
  {
    if ks != [] {
      OrderedMaps.DistinctHead(ks);
      RepeatedCounts(ks[1..], vals, scale, p);
      CountAppend(Repeat(ks[0], Copies(vals[ks[0]].weight, scale)), RepeatedFrom(ks[1..], vals, scale), p);
      CountRepeat(ks[0], Copies(vals[ks[0]].weight, scale), p);
      assert p in ks <==> p == ks[0] || p in ks[1..];
    }
  }

  /** The docstring's examples: weights foo=1, bar=2, baz=5 with scale 1
      give foo, bar, bar and five baz; with scale 2, foo truncates to none. */
  lemma DocExamples()
    ensures var vals := map["foo" := Entry(1.0, 1.0), "bar" := Entry(2.0, 1.0), "baz" := Entry(5.0, 1.0)];
      && RepeatedFrom(["foo", "bar", "baz"], vals, 1.0) == ["foo", "bar", "bar", "baz", "baz", "baz", "baz", "baz"]
      && RepeatedFrom(["foo", "bar", "baz"], vals, 2.0) == ["bar", "baz", "baz"]
  {
    var vals := map["foo" := Entry(1.0, 1.0), "bar" := Entry(2.0, 1.0), "baz" := Entry(5.0, 1.0)];
    var ks := ["foo", "bar", "baz"];
    assert ks[1..] == ["bar", "baz"] && ks[1..][1..] == ["baz"] && ks[1..][1..][1..] == [];
    assert Copies(1.0, 1.0) == 1 && Copies(2.0, 1.0) == 2 && Copies(5.0, 1.0) == 5;
    assert Copies(1.0, 2.0) == 0 && Copies(2.0, 2.0) == 1 && Copies(5.0, 2.0) == 2;
    assert Repeat("foo", 1) == ["foo"];
    assert Repeat("bar", 2) == ["bar", "bar"];
    assert Repeat("baz", 5) == ["baz", "baz", "baz", "baz", "baz"];
    assert Repeat("foo", 0) == [];
    assert Repeat("bar", 1) == ["bar"];
    assert Repeat("baz", 2) == ["baz", "baz"];
  }

  /** Weights 1, 2 and 5: the minimum 1 divides all, so the default scale is 1. */
  lemma DocExampleDefaultScale()
    ensures CommonDivisorAsWritten([1.0, 2.0, 5.0]) == Ok(1.0)
  {
    OneTwoFiveShape();
    assert DividesAll(1.0, [1.0, 2.0, 5.0]);
  }

  lemma OneTwoFiveShape()
    ensures NonZero([1.0, 2.0, 5.0]) == [1.0, 2.0, 5.0] && Min([1.0, 2.0, 5.0]) == 1.0
  {
    assert [1.0, 2.0, 5.0][1..] == [2.0, 5.0];
    assert [2.0, 5.0][1..] == [5.0];
    assert [5.0][1..] == [];
  }
}
