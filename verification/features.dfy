/** The numbers the index is computed from, read off one play record. */
module Features {
  import opened Wrappers
  import opened Text
  import opened Plays
  import opened ScoreReplay

  /** Python's `int(field)` for a field of a split. */
  function IntField(field: string): (r: Result<nat>)
    ensures r.Ok? <==> ParseNat(field).Some?
    ensures r.Ok? ==> ParseNat(field) == Some(r.value)
  {
    match ParseNat(field)
    case Some(n) => Ok(n)
    case None => Err(NotAnInteger(field))
  }

  /** The ball's position from 1 (own goal line) to 100 (opponent's goal
      line). The yard-line descriptor is "50", or a team code and a yard
      number; a yard number on the other team's side counts from 100. */
  function FieldPosition(play: Play): (r: Result<int>)
    ensures play.yardLine == "50" ==> r == Ok(50)
    ensures play.yardLine != "50" ==>
              (r.Ok? <==> |Words(play.yardLine)| >= 2 && ParseNat(Words(play.yardLine)[1]).Some?)
  {
    if play.yardLine == "50" then Ok(50)
    else
      var words := Words(play.yardLine);
      if |words| == 0 then Err(IndexOutOfRange("yard line team"))
      else if |words| == 1 then Err(IndexOutOfRange("yard line number"))
      else
        var yard :- IntField(words[1]);
        if play.posTeam != words[0] then Ok(50 + (50 - yard)) else Ok(yard)
  }

  /** A descriptor "TEAM n": the possessing team's own n-yard line is n, the
      other team's n-yard line is 100 - n, and yard numbers 1..50 land in 1..100. */
  lemma FieldPositionOfDescriptor(play: Play, team: string, yard: nat)
    requires IsWord(team)
    requires play.yardLine == team + " " + NatToString(yard)
    ensures FieldPosition(play) == Ok(if team == play.posTeam then yard else 100 - yard)
    ensures 1 <= yard <= 50 ==> 1 <= FieldPosition(play).value <= 100
  {
    var numeral := NatToString(yard);
    NumeralIsWord(yard);
    ParseNatToString(yard);
    WordsOfJoin([team, numeral]);
    assert Join([team, numeral], " ") == team + " " + numeral;
    assert IsSpace(play.yardLine[|team|]);
    assert play.yardLine != "50";
  }

  /** Seconds on a "MM:SS" clock, 60 * MM + SS. The clock is split at every
      colon and only the first two fields are read; the minutes are parsed
      before the seconds field is looked up. */
  function Seconds(clock: string): (r: Result<nat>)
    ensures r.Ok? <==>
              var fields := Split(clock, ":");
              ParseNat(fields[0]).Some? && |fields| >= 2 && ParseNat(fields[1]).Some?
  {
    var fields := Split(clock, ":");
    var minutes :- IntField(fields[0]);
    if |fields| < 2 then Err(IndexOutOfRange("clock seconds"))
    else
      var secs :- IntField(fields[1]);
      Ok(60 * minutes + secs)
  }

  /** No character of `s` is a colon. */
  predicate ColonFree(s: string) {
    forall i :: 0 <= i < |s| ==> s[i] != ':'
  }

  /** The first field of `a + rest` is `a` when `a` has no colon and `rest`
      is empty or starts with one. */
  lemma FirstField(a: string, rest: string)
    requires ColonFree(a)
    requires rest == "" || rest[0] == ':'
    ensures Split(a + rest, ":")[0] == a
    ensures rest != "" ==> Split(a + rest, ":")[1..] == Split(rest[1..], ":")
  {
    var s := a + rest;
    assert forall i :: 0 <= i < |a| ==> !OccursAt(s, ":", i) by {
      forall i | 0 <= i < |a|
        ensures !OccursAt(s, ":", i)
      {
        assert s[i..i + 1] == [a[i]];
      }
    }
    SplitHead(s, ":");
    if rest == "" {
      assert s == a;
      assert forall i :: !OccursAt(s, ":", i);
    } else {
      assert s[|a|..|a| + 1] == [rest[0]];
      FindAfterPrefix(a, rest, ":");
      assert s[..|a|] == a;
      assert s[|a| + 1..] == rest[1..];
    }
  }

  /** The first two fields of "M:S..." are M and S. */
  lemma ClockFields(m: string, s: string, extra: string)
    requires ColonFree(m) && ColonFree(s)
    requires extra == "" || extra[0] == ':'
    ensures var fields := Split(m + (":" + (s + extra)), ":");
            |fields| >= 2 && fields[0] == m && fields[1] == s
  {
    FirstField(m, ":" + (s + extra));
    assert (":" + (s + extra))[1..] == s + extra;
    FirstField(s, extra);
  }

  /** A numeral has no colon in it. */
  lemma NumeralColonFree(n: nat)
    ensures ColonFree(NatToString(n))
  {
    var s := NatToString(n);
    assert forall i :: 0 <= i < |s| ==> IsDigit(s[i]);
  }

  /** Seconds read off a clock whose first two fields parse to `minutes` and `secs`. */
  lemma SecondsOfFields(clock: string, minutes: nat, secs: nat)
    requires |Split(clock, ":")| >= 2
    requires ParseNat(Split(clock, ":")[0]) == Some(minutes)
    requires ParseNat(Split(clock, ":")[1]) == Some(secs)
    ensures Seconds(clock) == Ok(60 * minutes + secs)
  {
  }

  /** Regrouping a four-part concatenation to the right. */
  lemma ConcatAssoc(a: string, b: string, c: string, d: string)
    ensures a + b + c + d == a + (b + (c + d))
  {
  }

  /** A digit string has no colon in it. */
  lemma DigitsColonFree(s: string)
    requires AllDigits(s)
    ensures ColonFree(s)
  {
    assert forall i :: 0 <= i < |s| ==> IsDigit(s[i]);
  }

  /** A clock "MM:SS" of two digit strings (leading zeros allowed, as in
      "15:00" or "8:05") reads as 60 * MM + SS seconds, and any further
      ":..." fields are ignored. */
  lemma SecondsOfClock(m: string, s: string, extra: string)
    requires |m| > 0 && AllDigits(m) && |s| > 0 && AllDigits(s)
    requires extra == "" || extra[0] == ':'
    ensures Seconds(m + ":" + s + extra) == Ok(60 * DigitsValue(m) + DigitsValue(s))
  {
    ParseDigits(m);
    ParseDigits(s);
    SecondsOfParsedClock(m, s, extra, DigitsValue(m), DigitsValue(s));
  }

  /** `int()` of a non-empty digit string is its decimal value. */
  lemma ParseDigits(m: string)
    requires |m| > 0 && AllDigits(m)
    ensures ParseNat(m) == Some(DigitsValue(m))
  {
  }

  /** Seconds of "MM:SS..." whose two fields parse to `minutes` and `secs`. */
  lemma SecondsOfParsedClock(m: string, s: string, extra: string, minutes: nat, secs: nat)
    requires ParseNat(m) == Some(minutes) && ParseNat(s) == Some(secs)
    requires extra == "" || extra[0] == ':'
    ensures Seconds(m + ":" + s + extra) == Ok(60 * minutes + secs)
  {
    ConcatAssoc(m, ":", s, extra);
    DigitsColonFree(m);
    DigitsColonFree(s);
    ClockFields(m, s, extra);
    SecondsOfFields(m + ":" + s + extra, minutes, secs);
  }

  /** The clock at the start of a quarter reads 900 seconds. */
  lemma SecondsAtQuarterStart()
    ensures Seconds("15:00") == Ok(900)
  {
    assert "15:00" == "15" + ":" + "00" + "";
    SecondsOfClock("15", "00", "");
    assert DigitsValue("15") == 15 by {
      assert "15"[..1] == "1";
      assert "1"[..0] == "";
    }
    assert DigitsValue("00") == 0 by {
      assert "00"[..1] == "0";
      assert "0"[..0] == "";
    }
  }

  /** The score difference from the possessing team's point of view: its own
      points minus the other side's, where a possessing code other than the
      home code counts as the away side. */
  function ScoreDifferential(game: Game, play: Play): (r: Result<int>)
    ensures r.Ok? <==> ScoreAtPlay(game, play).Ok?
    ensures r.Ok? ==>
              var s := ScoreAtPlay(game, play).value;
              var side := SideOf(play.posTeam, game.home);
              r.value == s.Of(side) - s.Of(side.Other())
  {
    var score :- ScoreAtPlay(game, play);
    if play.posTeam == game.home then Ok(score.home - score.away)
    else Ok(score.away - score.home)
  }

  /** The same moment seen from the other team's possession gives the negated differential. */
  lemma DifferentialFlipsWithPossession(game: Game, play: Play, other: string)
    requires play.posTeam == game.home && other != game.home
    requires ScoreAtPlay(game, play).Ok?
    ensures ScoreDifferential(game, play.(posTeam := other)).Ok?
    ensures ScoreDifferential(game, play.(posTeam := other)).value == -ScoreDifferential(game, play).value
  {
  }
}
