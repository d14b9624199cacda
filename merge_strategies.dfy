/** `MergeStrategies` of awp/playlist.py: per-field rules that combine the
    value a path has in this playlist (`old`) with its value in the other
    playlist (`new`); either may be absent. A strategy answers a value, None
    to drop the path, or the exception it raises. */
module MergeStrategies {
  import opened Wrappers
  import opened Errors

  type Path = string

  datatype Strategy =
    | Average                        // MergeStrategies.average
    | Extreme(midpoint: real)        // MergeStrategies.extreme(midpoint)
    | TakeNewer                      // MergeStrategies.update
    | ExistsOnly(inner: Strategy)    // MergeStrategies.existsonly(single strategy)
    | ExistsOnlyOfPair               // each closure existsonly(pair) builds; it calls the pair itself
    | Custom(f: (Path, Option<real>, Option<real>) -> Option<real>)

  /** What `merge` is given as `strategy`: nothing (the default pair), one
      strategy for both fields, or a (weight, volume) pair. */
  datatype StrategyArg = Default | Single(s: Strategy) | Pair(weight: Strategy, volume: Strategy)

  /** `[x for x in values if x is not None]` */
  function Present(ours: Option<real>, theirs: Option<real>): (vs: seq<real>)
    ensures |vs| <= 2
    ensures vs == [] <==> ours.None? && theirs.None?
    ensures forall v :: v in vs <==> Some(v) == ours || Some(v) == theirs
  {
    (if ours.Some? then [ours.value] else []) + (if theirs.Some? then [theirs.value] else [])
  }

  function Sum(vs: seq<real>): real {
    if vs == [] then 0.0 else vs[0] + Sum(vs[1..])
  }

  /** `sum(vs) / len(vs)` */
  function Mean(vs: seq<real>): real
    requires vs != []
  {
    Sum(vs) / |vs| as real
  }

  function Abs(x: real): real {
    if x < 0.0 then -x else x
  }

  /** The sort key of `extreme`: distance from the midpoint, then the value. */
  predicate KeyAtLeast(m: real, a: real, b: real) {
    Abs(a - m) > Abs(b - m) || (Abs(a - m) == Abs(b - m) && a >= b)
  }

  /** `sorted(vs, key=(|v - m|, v), reverse=True)[0]`: the greatest element
      under the key. */
  function MostExtreme(m: real, vs: seq<real>): (r: real)
    requires vs != []
    ensures r in vs
    ensures forall v :: v in vs ==> KeyAtLeast(m, r, v)
  {
    if |vs| == 1 then vs[0]
    else
      var rest := MostExtreme(m, vs[1..]);
      assert forall v :: v in vs ==> v == vs[0] || v in vs[1..];
      if KeyAtLeast(m, vs[0], rest) then vs[0] else rest
  }

  /** `strategy(path, ours, theirs)` */
  function Apply(s: Strategy, path: Path, ours: Option<real>, theirs: Option<real>): (r: Result<Option<real>, Error>)
    decreases s
  {
    match s
    case Average =>
      var vs := Present(ours, theirs);
      if vs == [] then Err(ZeroDivision) else Ok(Some(Mean(vs)))
    case Extreme(m) =>
      var vs := Present(ours, theirs);
      if vs == [] then Err(NoValues) else Ok(Some(MostExtreme(m, vs)))
    case TakeNewer =>
      Ok(if theirs.None? then ours else theirs)
    case ExistsOnly(inner) =>
      if ours.None? then Ok(None) else Apply(inner, path, ours, theirs)
    case ExistsOnlyOfPair =>
      if ours.None? then Ok(None) else Err(NotCallable)
    case Custom(f) =>
      Ok(f(path, ours, theirs))
  }

  /** The (weight, volume) strategies `merge` ends up using for a given
      argument; `volAverage` is the mean volume of the target playlist, used
      only by the default. */
  function Strategies(arg: StrategyArg, volAverage: real): (Strategy, Strategy) {
    match arg
    case Default => (Average, Extreme(volAverage))
    case Single(s) => (s, s)
    case Pair(w, v) => (w, v)
  }

  /** `existsonly(strategy)`: a single strategy is wrapped; a pair becomes a
      pair of closures that call the pair itself. */
  function ExistsOnlyArg(arg: StrategyArg): (r: StrategyArg)
    requires !arg.Default?
  {
    match arg
    case Single(s) => Single(ExistsOnly(s))
    case Pair(_, _) => Pair(ExistsOnlyOfPair, ExistsOnlyOfPair)
  }

  /** `average` is the arithmetic mean of the values present, and fails
      when neither is. */
  lemma AverageIsMean(path: Path, a: real, b: real)
    ensures Apply(Average, path, Some(a), Some(b)) == Ok(Some((a + b) / 2.0))
    ensures Apply(Average, path, Some(a), None) == Ok(Some(a))
    ensures Apply(Average, path, None, Some(b)) == Ok(Some(b))
    ensures Apply(Average, path, None, None) == Err(ZeroDivision)
  {
    assert Present(Some(a), Some(b)) == [a, b];
    assert Present(Some(a), None) == [a];
    assert Present(None, Some(b)) == [b];
    assert Sum([a, b]) == a + Sum([b]);
    assert Sum([a]) == a + Sum([]);
    assert Sum([b]) == b + Sum([]);
  }

  /** `extreme(m)` picks whichever value is further from `m`, the greater on
      a tie, and the one present when only one is. */
  lemma ExtremeChoice(path: Path, m: real, a: real, b: real)
    ensures Apply(Extreme(m), path, Some(a), Some(b)) ==
      Ok(Some(if KeyAtLeast(m, a, b) then a else b))
    ensures Apply(Extreme(m), path, Some(a), None) == Ok(Some(a))
    ensures Apply(Extreme(m), path, None, Some(b)) == Ok(Some(b))
    ensures Apply(Extreme(m), path, None, None) == Err(NoValues)
  {
    assert Present(Some(a), Some(b)) == [a, b];
    assert [a, b][1..] == [b];
  }

  /** `extreme(10)` on 5 and 15 gives 15: equal distance, so the greater. */
  lemma ExtremeTieFavoursGreater(path: Path)
    ensures Apply(Extreme(10.0), path, Some(5.0), Some(15.0)) == Ok(Some(15.0))
    ensures Apply(Extreme(10.0), path, Some(15.0), Some(5.0)) == Ok(Some(15.0))
  {
    ExtremeChoice(path, 10.0, 5.0, 15.0);
    ExtremeChoice(path, 10.0, 15.0, 5.0);
  }

  /** `update` takes the new value unless it is absent. */
  lemma TakeNewerPrefersNew(path: Path, ours: Option<real>, theirs: Option<real>)
    ensures theirs.Some? ==> Apply(TakeNewer, path, ours, theirs) == Ok(theirs)
    ensures theirs.None? ==> Apply(TakeNewer, path, ours, theirs) == Ok(ours)
  {
  }

  /** `existsonly(s)` drops a path this playlist lacks and otherwise behaves as `s`. */
  lemma ExistsOnlyDelegates(s: Strategy, path: Path, ours: Option<real>, theirs: Option<real>)
    ensures ours.None? ==> Apply(ExistsOnly(s), path, ours, theirs) == Ok(None)
    ensures ours.Some? ==> Apply(ExistsOnly(s), path, ours, theirs) == Apply(s, path, ours, theirs)
  {
  }

  /** The pair form of `existsonly` fails as soon as the path exists here. */
  lemma ExistsOnlyPairFails(w: Strategy, v: Strategy, path: Path, ours: real, theirs: Option<real>)
    ensures var (sw, sv) := Strategies(ExistsOnlyArg(Pair(w, v)), 0.0);
      Apply(sw, path, Some(ours), theirs) == Err(NotCallable) && Apply(sv, path, Some(ours), theirs) == Err(NotCallable)
  {
  }

  /** Strategies that always keep a path when some value is present. */
  predicate NeverDrops(s: Strategy) {
    s.Average? || s.Extreme? || s.TakeNewer?
  }

  /** A non-dropping strategy given at least one value answers a value, and
      for `extreme` and `update` it is one of the values given. */
  lemma NeverDropsKeeps(s: Strategy, path: Path, ours: Option<real>, theirs: Option<real>)
    requires NeverDrops(s)
    requires ours.Some? || theirs.Some?
    ensures Apply(s, path, ours, theirs).Ok? && Apply(s, path, ours, theirs).value.Some?
    ensures !s.Average? ==> Some(Apply(s, path, ours, theirs).value.value) in {ours, theirs}
  {
  }
}
