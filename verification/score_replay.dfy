/** Reconstruction of the score just before a play, by replaying the game's
    play list from the kickoff and reading scoring events out of the
    description text (`score_at_play`). */
module ScoreReplay {
  import opened Wrappers
  import opened Text
  import opened Plays

  // The vocabulary the replay looks for in a description.
  const ReversalCheck := "and the play was REVERSED"
  const ReversalMarker := "and the play was REVERSED."
  const Intercepted := "INTERCEPTED"
  const Recovered := "RECOVERED by"
  const Muffs := "MUFFS"
  const Touchdown := "TOUCHDOWN"
  const FieldGoalGood := "field goal is GOOD"
  const ExtraPointGood := "extra point is GOOD"
  const TwoPointAttempt := "TWO-POINT CONVERSION ATTEMPT"
  const AttemptSucceeds := "ATTEMPT SUCCEEDS"
  const Safety := "SAFETY"

  datatype Side = Away | Home {
    function Other(): Side {
      if this == Home then Away else Home
    }
  }

  /** The running score; the script keeps it as `[away, home]`. */
  datatype Score = Score(away: nat, home: nat) {
    function Of(side: Side): nat {
      if side == Home then home else away
    }
  }

  /** What one play adds to the score: nothing, or `n` points to one side. */
  datatype Credit = NoPoints | Points(side: Side, n: nat)

  /** Neither component of `s` exceeds the matching component of `t`. */
  predicate NoLessThan(t: Score, s: Score) {
    s.away <= t.away && s.home <= t.home
  }

  /** The side a team code is credited as: home exactly when it equals the home code. */
  function SideOf(team: string, home: string): Side {
    if team == home then Home else Away
  }

  /** The text of the ruling that stands. A description containing the review
      phrase is cut at the phrase followed by a period, and only the field
      after the first such marker (up to a second one) is kept; when the
      phrase never appears with its period the script indexes a missing field. */
  function RulingText(desc: string): (r: Result<string>)
    ensures !Contains(desc, ReversalCheck) ==> r == Ok(desc)
    ensures Contains(desc, ReversalCheck) ==> (r.Ok? <==> Contains(desc, ReversalMarker))
    ensures r.Ok? && Contains(desc, ReversalCheck) ==>
              var tail := desc[Find(desc, ReversalMarker).value + |ReversalMarker|..];
              && r.value <= tail
              && !Contains(r.value, ReversalMarker)
              && (r.value == tail || OccursAt(tail, ReversalMarker, |r.value|))
  {
    if !Contains(desc, ReversalCheck) then Ok(desc)
    else
      var parts := Split(desc, ReversalMarker);
      SplitHead(desc, ReversalMarker);
      if |parts| < 2 then Err(IndexOutOfRange("text after the reversal marker"))
      else
        var tail := desc[Find(desc, ReversalMarker).value + |ReversalMarker|..];
        SplitHead(tail, ReversalMarker);
        Ok(parts[1])
  }

  /** How many times the text hands the ball to the other team: once for an
      interception, once for a fumble recovery that is not a muffed punt. */
  function Turnovers(text: string): nat {
    (if Contains(text, Intercepted) then 1 else 0) +
    (if Contains(text, Recovered) && !Contains(text, Muffs) then 1 else 0)
  }

  /** `side` after `k` changes of possession. */
  function Turned(side: Side, k: nat): Side {
    if k % 2 == 0 then side else side.Other()
  }

  /** The script's possession swap: the home team becomes the away team, and
      every other code becomes the home team. */
  function Flip(team: string, home: string, away: string): string {
    if home == team then away else home
  }

  /** The team the replay credits with the play's points, after the
      interception and fumble-recovery swaps. */
  function Possessor(text: string, posTeam: string, home: string, away: string): (team: string)
    ensures team == posTeam || team == home || team == away
    ensures home != away ==>
              SideOf(team, home) == Turned(SideOf(posTeam, home), Turnovers(text))
  {
    var afterInterception :=
      if Contains(text, Intercepted) then Flip(posTeam, home, away) else posTeam;
    if Contains(text, Recovered) && !Contains(text, Muffs)
    then Flip(afterInterception, home, away)
    else afterInterception
  }

  /** At most one scoring event per play, tested in the script's order:
      touchdown, field goal, extra point, two-point conversion, safety. */
  function ScoringCredit(text: string, side: Side): (c: Credit)
    ensures c.Points? ==> c.n == 6 || c.n == 3 || c.n == 2 || c.n == 1
    ensures Contains(text, Touchdown) ==> c == Points(side, 6)
    ensures !Contains(text, Touchdown) && Contains(text, FieldGoalGood) ==> c == Points(side, 3)
    ensures (!Contains(text, Touchdown) && !Contains(text, FieldGoalGood) && Contains(text, ExtraPointGood))
            ==> c == Points(side, 1)
    ensures (&& !Contains(text, Touchdown) && !Contains(text, FieldGoalGood) && !Contains(text, ExtraPointGood)
             && Contains(text, TwoPointAttempt) && Contains(text, AttemptSucceeds))
            ==> c == Points(side, 2)
    ensures (&& !Contains(text, Touchdown) && !Contains(text, FieldGoalGood) && !Contains(text, ExtraPointGood)
             && !(Contains(text, TwoPointAttempt) && Contains(text, AttemptSucceeds)) && Contains(text, Safety))
            ==> c == Points(side.Other(), 2)
    ensures c.Points? && c.side != side ==> c.n == 2 && Contains(text, Safety)
    ensures c == NoPoints <==>
              && !Contains(text, Touchdown)
              && !Contains(text, FieldGoalGood)
              && !Contains(text, ExtraPointGood)
              && !(Contains(text, TwoPointAttempt) && Contains(text, AttemptSucceeds))
              && !Contains(text, Safety)
  {
    if Contains(text, Touchdown) then Points(side, 6)
    else if Contains(text, FieldGoalGood) then Points(side, 3)
    else if Contains(text, ExtraPointGood) then Points(side, 1)
    else if Contains(text, TwoPointAttempt) && Contains(text, AttemptSucceeds) then Points(side, 2)
    else if Contains(text, Safety) then Points(side.Other(), 2)
    else NoPoints
  }

  /** The points one replayed play contributes. */
  function PlayCredit(play: Play, home: string, away: string): Result<Credit>
  {
    var text :- RulingText(play.desc);
    var team := Possessor(text, play.posTeam, home, away);
    Ok(ScoringCredit(text, SideOf(team, home)))
  }

  /** The score after crediting `c`: the named side's column gains the
      points and the other column is left alone. */
  function Award(s: Score, c: Credit): (t: Score)
    ensures c == NoPoints ==> t == s
    ensures c.Points? ==> t.Of(c.side) == s.Of(c.side) + c.n && t.Of(c.side.Other()) == s.Of(c.side.Other())
  {
    match c
    case NoPoints => s
    case Points(side, n) =>
      if side == Home then s.(home := s.home + n) else s.(away := s.away + n)
  }

  /** Replaying one play adds 0, 1, 2, 3 or 6 points to one side and leaves
      the other alone; the points go to the column of the side the play credits. */
  function Step(play: Play, home: string, away: string, s: Score): (r: Result<Score>)
    ensures r.Err? <==> RulingText(play.desc).Err?
    ensures r.Ok? ==>
              var c := PlayCredit(play, home, away).value;
              && (c == NoPoints ==> r.value == s)
              && (c.Points? ==> r.value.Of(c.side) == s.Of(c.side) + c.n
                                && r.value.Of(c.side.Other()) == s.Of(c.side.Other()))
    ensures r.Ok? ==>
              || r.value == s
              || (r.value.away == s.away && r.value.home - s.home in {1, 2, 3, 6})
              || (r.value.home == s.home && r.value.away - s.away in {1, 2, 3, 6})
  {
    var c :- PlayCredit(play, home, away);
    Ok(Award(s, c))
  }

  /** Replays every play of `plays`, starting from the score `s`. */
  function Replay(plays: seq<Play>, home: string, away: string, s: Score): (r: Result<Score>)
    ensures r.Ok? ==> NoLessThan(r.value, s)
    decreases |plays|
  {
    if |plays| == 0 then Ok(s)
    else
      var next :- Step(plays[0], home, away, s);
      Replay(plays[1..], home, away, next)
  }

  /** Replays `plays` from `s`, stopping before the first play whose description is `target`. */
  function ReplayUntil(plays: seq<Play>, target: string, home: string, away: string, s: Score): (r: Result<Score>)
    ensures r.Ok? ==> NoLessThan(r.value, s)
    decreases |plays|
  {
    if |plays| == 0 || plays[0].desc == target then Ok(s)
    else
      var next :- Step(plays[0], home, away, s);
      ReplayUntil(plays[1..], target, home, away, next)
  }

  /** The position of the first play whose description is `target`, or `|plays|`. */
  function FirstMatch(plays: seq<Play>, target: string): (k: nat)
    ensures k <= |plays|
    ensures k < |plays| ==> plays[k].desc == target
    ensures forall j :: 0 <= j < k ==> plays[j].desc != target
  {
    if |plays| == 0 || plays[0].desc == target then 0 else 1 + FirstMatch(plays[1..], target)
  }

  /** Stopping at the target is replaying exactly the plays before its first match. */
  lemma {:induction false} ReplayUntilIsPrefixReplay(plays: seq<Play>, target: string, home: string, away: string, s: Score)
    ensures ReplayUntil(plays, target, home, away, s)
         == Replay(plays[..FirstMatch(plays, target)], home, away, s)
    decreases |plays|
  {
    var k := FirstMatch(plays, target);
    if |plays| == 0 || plays[0].desc == target {
      assert plays[..k] == [];
    } else {
      var prefix := plays[..k];
      assert prefix[0] == plays[0];
      assert prefix[1..] == plays[1..][..FirstMatch(plays[1..], target)];
      match Step(plays[0], home, away, s)
      case Err(_) =>
      case Ok(next) =>
        ReplayUntilIsPrefixReplay(plays[1..], target, home, away, next);
    }
  }

  /** Replaying `a + b` is replaying `a` and then `b` from where `a` left off. */
  lemma {:induction false} ReplayAppend(a: seq<Play>, b: seq<Play>, home: string, away: string, s: Score)
    ensures Replay(a + b, home, away, s)
         == match Replay(a, home, away, s)
            case Err(e) => Err(e)
            case Ok(t) => Replay(b, home, away, t)
    decreases |a|
  {
    if |a| == 0 {
      assert a + b == b;
    } else {
      assert (a + b)[0] == a[0];
      assert (a + b)[1..] == a[1..] + b;
      match Step(a[0], home, away, s)
      case Err(_) =>
      case Ok(next) =>
        ReplayAppend(a[1..], b, home, away, next);
    }
  }

  /** The score before a later play is never below the score before an earlier play. */
  lemma ReplayPrefixMonotone(plays: seq<Play>, i: nat, j: nat, home: string, away: string)
    requires i <= j <= |plays|
    ensures Replay(plays[..j], home, away, Score(0, 0)).Ok? ==>
              && Replay(plays[..i], home, away, Score(0, 0)).Ok?
              && NoLessThan(Replay(plays[..j], home, away, Score(0, 0)).value,
                            Replay(plays[..i], home, away, Score(0, 0)).value)
  {
    assert plays[..j] == plays[..i] + plays[i..j];
    ReplayAppend(plays[..i], plays[i..j], home, away, Score(0, 0));
  }

  /** The score just before `play` in `game`: replay from 0-0 up to the first
      play with the same description; if none matches, the whole game is
      replayed and its final score returned. */
  function ScoreAtPlay(game: Game, play: Play): (r: Result<Score>)
    ensures r == Replay(game.plays[..FirstMatch(game.plays, play.desc)], game.home, game.away, Score(0, 0))
    ensures (forall j :: 0 <= j < |game.plays| ==> game.plays[j].desc != play.desc) ==>
              r == Replay(game.plays, game.home, game.away, Score(0, 0))
  {
    ReplayUntilIsPrefixReplay(game.plays, play.desc, game.home, game.away, Score(0, 0));
    assert game.plays[..|game.plays|] == game.plays;
    ReplayUntil(game.plays, play.desc, game.home, game.away, Score(0, 0))
  }

  /** An interception returned for a touchdown scores for the intercepting team. */
  lemma InterceptionReturnCreditsDefense(play: Play, home: string, away: string)
    requires home != away
    requires !Contains(play.desc, ReversalCheck)
    requires Contains(play.desc, Intercepted) && !Contains(play.desc, Recovered)
    requires Contains(play.desc, Touchdown)
    ensures PlayCredit(play, home, away) == Ok(Points(SideOf(play.posTeam, home).Other(), 6))
  {
    assert Turnovers(play.desc) == 1;
  }

  /** A muffed punt recovered by the kicking team leaves the credited team unchanged. */
  lemma MuffedPuntKeepsPossession(text: string, posTeam: string, home: string, away: string)
    requires !Contains(text, Intercepted)
    requires Contains(text, Recovered) && Contains(text, Muffs)
    ensures Possessor(text, posTeam, home, away) == posTeam
  {
  }

  /** An interception followed by a fumble recovery hands the ball back. */
  lemma InterceptionThenFumbleRestoresPossession(text: string, posTeam: string, home: string, away: string)
    requires home != away
    requires Contains(text, Intercepted)
    requires Contains(text, Recovered) && !Contains(text, Muffs)
    ensures SideOf(Possessor(text, posTeam, home, away), home) == SideOf(posTeam, home)
  {
    assert Turnovers(text) == 2;
  }

  /** A safety scores two points for the team opposite the effective possessor. */
  lemma SafetyCreditsOpponent(play: Play, home: string, away: string)
    requires home != away
    requires !Contains(play.desc, ReversalCheck)
    requires Contains(play.desc, Safety)
    requires !Contains(play.desc, Touchdown) && !Contains(play.desc, FieldGoalGood)
    requires !Contains(play.desc, ExtraPointGood) && !Contains(play.desc, TwoPointAttempt)
    ensures PlayCredit(play, home, away)
         == Ok(Points(Turned(SideOf(play.posTeam, home), Turnovers(play.desc)).Other(), 2))
  {
  }

  /** The review phrase with its period occurs wherever the marker does. */
  lemma MarkerContainsCheck(d: string, i: nat)
    requires OccursAt(d, ReversalMarker, i)
    ensures OccursAt(d, ReversalCheck, i)
  {
    assert ReversalCheck == ReversalMarker[..|ReversalCheck|];
    assert d[i..i + |ReversalCheck|] == d[i..i + |ReversalMarker|][..|ReversalCheck|];
  }

  /** Whatever precedes the first reversal marker (the overturned call) has no
      effect on the points a play is credited with. */
  lemma OverturnedCallIgnored(play: Play, before1: string, before2: string, after: string, home: string, away: string)
    requires Find(before1 + ReversalMarker + after, ReversalMarker) == Some(|before1|)
    requires Find(before2 + ReversalMarker + after, ReversalMarker) == Some(|before2|)
    ensures PlayCredit(play.(desc := before1 + ReversalMarker + after), home, away)
         == PlayCredit(play.(desc := before2 + ReversalMarker + after), home, away)
  {
    forall before | before == before1 || before == before2
      ensures RulingText(before + ReversalMarker + after) == Ok(Split(after, ReversalMarker)[0])
    {
      var d := before + ReversalMarker + after;
      MarkerContainsCheck(d, |before|);
      assert d[|before| + |ReversalMarker|..] == after;
      SplitHead(d, ReversalMarker);
    }
  }

  /** A home touchdown followed by an away punt: the score before the punt is
      0 for the away side and 6 for the home side. */
  lemma HomeTouchdownThenAwayPunt()
    ensures ScoreAtPlay(
              Game("HOM", "AWY", [Play("TOUCHDOWN", "AWY 5", 5, 1, "10:00", "HOM"),
                                  Play("punts", "AWY 30", 8, 1, "8:00", "AWY")]),
              Play("punts", "AWY 30", 8, 1, "8:00", "AWY"))
         == Ok(Score(0, 6))
  {
    var touchdown := Play(Touchdown, "AWY 5", 5, 1, "10:00", "HOM");
    var punt := Play("punts", "AWY 30", 8, 1, "8:00", "AWY");
    var game := Game("HOM", "AWY", [touchdown, punt]);
    TouchdownTextIsPlain();
    PlainTouchdownStep(touchdown, "HOM", "AWY", Score(0, 0));
    assert touchdown.desc != punt.desc;
    assert FirstMatch(game.plays, punt.desc) == 1;
    assert game.plays[..1] == [touchdown];
    assert [touchdown][1..] == [];
  }

  /** The text "TOUCHDOWN" has the touchdown marker and no review, interception or recovery phrase. */
  lemma TouchdownTextIsPlain()
    ensures Contains(Touchdown, Touchdown)
    ensures !Contains(Touchdown, ReversalCheck)
    ensures !Contains(Touchdown, Intercepted)
    ensures !Contains(Touchdown, Recovered)
  {
    assert OccursAt(Touchdown, Touchdown, 0);
    assert 'a' !in Touchdown && 'I' !in Touchdown && 'R' !in Touchdown;
    NotContainsMissingChar(Touchdown, ReversalCheck, 'a');
    NotContainsMissingChar(Touchdown, Intercepted, 'I');
    NotContainsMissingChar(Touchdown, Recovered, 'R');
  }

  /** A touchdown with no review, interception or recovery scores 6 for the
      possessing side, home or away, and nothing for the other. */
  lemma PlainTouchdownStep(play: Play, home: string, away: string, s: Score)
    requires !Contains(play.desc, ReversalCheck) && !Contains(play.desc, Intercepted) && !Contains(play.desc, Recovered)
    requires Contains(play.desc, Touchdown)
    ensures var side := SideOf(play.posTeam, home);
            && Step(play, home, away, s).Ok?
            && Step(play, home, away, s).value.Of(side) == s.Of(side) + 6
            && Step(play, home, away, s).value.Of(side.Other()) == s.Of(side.Other())
  {
    assert RulingText(play.desc) == Ok(play.desc);
    assert Possessor(play.desc, play.posTeam, home, away) == play.posTeam;
  }

  /** A text lacking one of the pattern's characters cannot contain the pattern. */
  lemma NotContainsMissingChar(s: string, pat: string, c: char)
    requires c in pat && c !in s
    ensures !Contains(s, pat)
  {
  }
}
