/** The surrender index of a punt and the stack rank of a batch of punts. */
module Ranking {
  import opened Wrappers
  import opened Plays
  import opened Features
  import opened Multipliers

  /** The product of the four weights. The weights are evaluated left to
      right, so the first malformed field met is the error reported. */
  function SurrenderIndex(punt: GamePlay): (r: Result<real>)
    ensures r.Ok? <==>
              && FieldPosition(punt.play).Ok?
              && ScoreDifferential(punt.game, punt.play).Ok?
              && ClockMultiplier(punt.play.quarter, punt.play.clock).Ok?
    ensures FieldPosition(punt.play).Err? ==> r == Err(FieldPosition(punt.play).error)
    ensures r.Ok? ==> r.value >= 0.2
    ensures r.Ok? ==>
              r.value == Product(YardLineMultiplier(FieldPosition(punt.play).value),
                                 FirstDownDistanceMultiplier(punt.play.yardsToGo),
                                 ScoreDifferentialMultiplier(ScoreDifferential(punt.game, punt.play).value) as real,
                                 ClockMultiplier(punt.play.quarter, punt.play.clock).value)
  {
    var play := punt.play;
    var position :- FieldPosition(play);
    var yardWeight := YardLineMultiplier(position);
    var distanceWeight := FirstDownDistanceMultiplier(play.yardsToGo);
    var diff :- ScoreDifferential(punt.game, play);
    var scoreWeight := ScoreDifferentialMultiplier(diff) as real;
    var clockWeight :- ClockMultiplier(play.quarter, play.clock);
    WeightsBound(yardWeight, distanceWeight, scoreWeight, clockWeight);
    Ok(Product(yardWeight, distanceWeight, scoreWeight, clockWeight))
  }

  /** The four weights multiplied left to right. */
  function Product(yardWeight: real, distanceWeight: real, scoreWeight: real, clockWeight: real): real
  {
    yardWeight * distanceWeight * scoreWeight * clockWeight
  }

  /** Moving the ball forward, everything else unchanged, never lowers the index. */
  lemma SurrenderIndexGrowsWithFieldPosition(punt: GamePlay, yardLine: string)
    requires SurrenderIndex(punt).Ok?
    requires FieldPosition(punt.play.(yardLine := yardLine)).Ok?
    requires FieldPosition(punt.play).value <= FieldPosition(punt.play.(yardLine := yardLine)).value
    ensures SurrenderIndex(GamePlay(punt.play.(yardLine := yardLine), punt.game)).Ok?
    ensures SurrenderIndex(punt).value
         <= SurrenderIndex(GamePlay(punt.play.(yardLine := yardLine), punt.game)).value
  {
    var play := punt.play;
    var moved := play.(yardLine := yardLine);
    SameMoment(punt.game, play, moved);
    var a1 := YardLineMultiplier(FieldPosition(play).value);
    var a2 := YardLineMultiplier(FieldPosition(moved).value);
    var b := FirstDownDistanceMultiplier(play.yardsToGo);
    var c := ScoreDifferentialMultiplier(ScoreDifferential(punt.game, play).value) as real;
    var d := ClockMultiplier(play.quarter, play.clock).value;
    YardLineMonotone(FieldPosition(play).value, FieldPosition(moved).value);
    ProductMonotoneFirst(a1, a2, b, c, d);
  }

  /** A longer distance to go, everything else unchanged, never raises the index. */
  lemma SurrenderIndexFallsWithDistance(punt: GamePlay, yardsToGo: int)
    requires SurrenderIndex(punt).Ok?
    requires punt.play.yardsToGo <= yardsToGo
    ensures SurrenderIndex(GamePlay(punt.play.(yardsToGo := yardsToGo), punt.game)).Ok?
    ensures SurrenderIndex(GamePlay(punt.play.(yardsToGo := yardsToGo), punt.game)).value
         <= SurrenderIndex(punt).value
  {
    var play := punt.play;
    var longer := play.(yardsToGo := yardsToGo);
    SameMoment(punt.game, play, longer);
    SameSpot(play, longer);
    var a := YardLineMultiplier(FieldPosition(play).value);
    var c := ScoreDifferentialMultiplier(ScoreDifferential(punt.game, play).value) as real;
    var d := ClockMultiplier(play.quarter, play.clock).value;
    var b1 := FirstDownDistanceMultiplier(play.yardsToGo);
    var b2 := FirstDownDistanceMultiplier(yardsToGo);
    FirstDownDistanceNonIncreasing(play.yardsToGo, yardsToGo);
    ProductMonotoneSecond(a, b2, b1, c, d);
    assert SurrenderIndex(punt).value == Product(a, b1, c, d);
    assert SurrenderIndex(GamePlay(longer, punt.game)).value == Product(a, b2, c, d);
  }

  /** Two records of the same play by the same team see the same score differential. */
  lemma SameMoment(game: Game, p: Play, q: Play)
    requires p.desc == q.desc && p.posTeam == q.posTeam
    ensures ScoreDifferential(game, q) == ScoreDifferential(game, p)
  {
  }

  /** Two records with the same yard line and possessing team have the same field position. */
  lemma SameSpot(p: Play, q: Play)
    requires p.yardLine == q.yardLine && p.posTeam == q.posTeam
    ensures FieldPosition(q) == FieldPosition(p)
  {
  }

  lemma ProductMonotoneFirst(x: real, y: real, b: real, c: real, d: real)
    requires 0.0 <= x <= y && b >= 0.0 && c >= 0.0 && d >= 0.0
    ensures Product(x, b, c, d) <= Product(y, b, c, d)
  {
    ProductMonotone(x, y, b);
    ProductMonotone(x * b, y * b, c);
    ProductMonotone(x * b * c, y * b * c, d);
  }

  lemma ProductMonotoneSecond(a: real, x: real, y: real, c: real, d: real)
    requires a >= 0.0 && 0.0 <= x <= y && c >= 0.0 && d >= 0.0
    ensures Product(a, x, c, d) <= Product(a, y, c, d)
  {
    ProductMonotoneFirst(x, y, a, c, d);
    assert Product(a, x, c, d) == Product(x, a, c, d);
    assert Product(a, y, c, d) == Product(y, a, c, d);
  }

  lemma WeightsBound(a: real, b: real, c: real, d: real)
    requires a >= 1.0 && b >= 0.2 && c >= 1.0 && d >= 1.0
    ensures Product(a, b, c, d) >= 0.2
  {
    ProductMonotone(1.0, a, b);
    var ab := a * b;
    ProductMonotone(0.2, ab, c);
    ProductMonotone(1.0, c, ab);
    var abc := ab * c;
    ProductMonotone(0.2, abc, d);
    ProductMonotone(1.0, d, abc);
    calc {
      0.2;
      <= ab;
      <= abc;
      <= abc * d;
    }
  }

  /** The values of `results` in order, or the error of the first one that failed. */
  function Collect(results: seq<Result<real>>): (r: Result<seq<real>>)
    ensures r.Ok? <==> forall i :: 0 <= i < |results| ==> results[i].Ok?
    ensures r.Ok? ==> |r.value| == |results|
    ensures r.Ok? ==> forall i :: 0 <= i < |results| ==> results[i] == Ok(r.value[i])
    ensures r.Err? ==> exists k :: 0 <= k < |results| && results[k] == Err(r.error) &&
                                  forall j :: 0 <= j < k ==> results[j].Ok?
  {
    if |results| == 0 then Ok([])
    else
      var first :- results[0];
      var rest := Collect(results[1..]);
      assert forall i :: 1 <= i < |results| ==> results[i] == results[1..][i - 1];
      if rest.Err? then Err(rest.error) else Ok([first] + rest.value)
  }

  /** The index of every punt, in input order; the first punt whose index
      cannot be computed stops the whole batch with its error. */
  function IndicesOfAll(punts: seq<GamePlay>): (r: Result<seq<real>>)
    ensures r.Ok? <==> forall i :: 0 <= i < |punts| ==> SurrenderIndex(punts[i]).Ok?
    ensures r.Ok? ==> |r.value| == |punts|
    ensures r.Ok? ==> forall i :: 0 <= i < |punts| ==> SurrenderIndex(punts[i]) == Ok(r.value[i])
    ensures r.Err? ==> exists k :: 0 <= k < |punts| && SurrenderIndex(punts[k]) == Err(r.error) &&
                                  forall j :: 0 <= j < k ==> SurrenderIndex(punts[j]).Ok?
  {
    var results := seq(|punts|, i requires 0 <= i < |punts| => SurrenderIndex(punts[i]));
    assert forall i :: 0 <= i < |punts| ==> results[i] == SurrenderIndex(punts[i]);
    Collect(results)
  }

  /** A punt with its index. */
  datatype Ranked = Ranked(punt: GamePlay, index: real)

  /** Each punt paired with the index in the same position. */
  function Pair(punts: seq<GamePlay>, indices: seq<real>): (r: seq<Ranked>)
    requires |punts| == |indices|
    ensures |r| == |punts|
    ensures forall i :: 0 <= i < |r| ==> r[i] == Ranked(punts[i], indices[i])
  {
    if |punts| == 0 then [] else [Ranked(punts[0], indices[0])] + Pair(punts[1..], indices[1..])
  }

  /** Highest index first. */
  predicate NonIncreasing(s: seq<Ranked>) {
    forall i, j :: 0 <= i < j < |s| ==> s[i].index >= s[j].index
  }

  /** Inserts `x` into a list already ordered highest first. */
  function InsertDescending(x: Ranked, s: seq<Ranked>): (r: seq<Ranked>)
    requires NonIncreasing(s)
    ensures NonIncreasing(r)
    ensures multiset(r) == multiset(s) + multiset{x}
    ensures |r| > 0 && (r[0] == x || (|s| > 0 && r[0] == s[0]))
  {
    if |s| == 0 || x.index >= s[0].index then [x] + s
    else
      var rest := InsertDescending(x, s[1..]);
      assert s == [s[0]] + s[1..];
      [s[0]] + rest
  }

  /** The entries of `s` ordered highest index first. */
  function SortDescending(s: seq<Ranked>): (r: seq<Ranked>)
    ensures NonIncreasing(r)
    ensures multiset(r) == multiset(s)
  {
    if |s| == 0 then []
    else
      assert s == [s[0]] + s[1..];
      InsertDescending(s[0], SortDescending(s[1..]))
  }

  /** Every punt paired with its own index, as a permutation of the input
      ordered by non-increasing index; the order among equal indices is left open.
      An empty batch fails: the script's array of pairs is then one-dimensional
      and selecting its index column raises an index error. */
  function FinalStackRank(punts: seq<GamePlay>): (r: Result<seq<Ranked>>)
    ensures r.Ok? <==> |punts| > 0 && forall i :: 0 <= i < |punts| ==> SurrenderIndex(punts[i]).Ok?
    ensures |punts| == 0 ==> r.Err?
    ensures r.Ok? ==> NonIncreasing(r.value)
    ensures r.Ok? ==> multiset(r.value) == multiset(Pair(punts, IndicesOfAll(punts).value))
    ensures r.Ok? ==> forall k :: 0 <= k < |r.value| ==> SurrenderIndex(r.value[k].punt) == Ok(r.value[k].index)
  {
    var indices :- IndicesOfAll(punts);
    if |punts| == 0 then Err(IndexOutOfRange("index column of an empty stack rank"))
    else
      var pairs := Pair(punts, indices);
      var ranked := SortDescending(pairs);
      forall k | 0 <= k < |ranked|
        ensures SurrenderIndex(ranked[k].punt) == Ok(ranked[k].index)
      {
        assert ranked[k] in multiset(ranked);
        assert ranked[k] in pairs;
        var i :| 0 <= i < |pairs| && pairs[i] == ranked[k];
      }
      Ok(ranked)
  }
}
