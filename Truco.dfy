/** The Truco scoreboard: two teams racing to 12 points, a stake ("hand value") that the
    players raise along a fixed per-mode sequence, a count of matches won per team, and a
    history of point events that the bar graph draws and that "undo" trims. */
module Truco {

  datatype Team = Us | Them
  {
    function Other(): Team
    {
      if this == Us then Them else Us
    }
  }

  datatype Mode = Paulista | Mineiro

  /** One scoring event of the graph: the team that scored and the stake it scored. */
  datatype HistoryItem = HistoryItem(team: Team, points: int)

  /** The winning score, written as a literal in the source. */
  const MaxScore: int := 12
  /** Cap of the trophy counter. */
  const MaxMatchWins: int := 5

  function Max(a: int, b: int): int { if a >= b then a else b }
  function Min(a: int, b: int): int { if a <= b then a else b }

  // ---------------------------------------------------------------------------
  // The stake
  // ---------------------------------------------------------------------------

  /** The stake a fresh hand is worth. */
  function BaseStake(m: Mode): int
  {
    if m == Paulista then 1 else 2
  }

  /** The escalation sequence of a mode. */
  function Stakes(m: Mode): seq<int>
  {
    if m == Paulista then [1, 3, 6, 9, 12] else [2, 4, 6, 8, 10, 12]
  }

  lemma StakesShape(m: Mode)
    ensures Stakes(m)[0] == BaseStake(m) && Stakes(m)[|Stakes(m)| - 1] == MaxScore
    ensures forall i, j :: 0 <= i < j < |Stakes(m)| ==> Stakes(m)[i] < Stakes(m)[j]
  {
  }

  /** `Array.prototype.indexOf`: the first index holding `v`, or -1. */
  function IndexOf(s: seq<int>, v: int): (i: int)
    ensures -1 <= i < |s|
    ensures i == -1 <==> v !in s
    ensures 0 <= i ==> s[i] == v && v !in s[..i]
  {
    if s == [] then -1
    else if s[0] == v then 0
    else
      var j := IndexOf(s[1..], v);
      assert s == [s[0]] + s[1..];
      if j == -1 then -1 else (assert s[..j + 1] == [s[0]] + s[1..][..j]; j + 1)
  }

  /** The stake after `increaseStakes`: the next value of the mode's sequence; unchanged at
      the top; the sequence's first value when `v` is not in it (`indexOf` gives -1). */
  function NextStake(m: Mode, v: int): (r: int)
    ensures r in Stakes(m)
    ensures v == MaxScore ==> r == v
    ensures v !in Stakes(m) ==> r == Stakes(m)[0]
    ensures v in Stakes(m) && v != MaxScore ==> r > v
  {
    StakesShape(m);
    var s := Stakes(m);
    var i := IndexOf(s, v);
    if i < |s| - 1 then s[i + 1] else v
  }

  /** `f` applied `n` times to `v`. */
  function Iterate(f: int -> int, v: int, n: nat): int
  {
    if n == 0 then v else f(Iterate(f, v, n - 1))
  }

  /** `n + 1` applications are one application followed by `n` more. */
  lemma {:induction false} IterateFirst(f: int -> int, v: int, n: nat)
    ensures Iterate(f, v, n + 1) == Iterate(f, f(v), n)
  {
    if n > 0 {
      IterateFirst(f, v, n - 1);
    }
  }

  /** A step that moves along `s` one position at a time, and stays on the last, reaches
      position `i + n` (or the last) after `n` steps from position `i`. */
  lemma {:induction false} IterateAlong(f: int -> int, s: seq<int>, i: nat, n: nat)
    requires i < |s|
    requires forall k :: 0 <= k < |s| ==> f(s[k]) == s[Min(k + 1, |s| - 1)]
    ensures Iterate(f, s[i], n) == s[Min(i + n, |s| - 1)]
  {
    if n > 0 {
      IterateAlong(f, s, i, n - 1);
    }
  }

  /** One press of the raise button, as a step function. */
  function RaiseStep(m: Mode): int -> int
  {
    v => NextStake(m, v)
  }

  /** The stake after `n` presses of the raise button. */
  function RaiseTimes(m: Mode, v: int, n: nat): int
  {
    Iterate(RaiseStep(m), v, n)
  }

  /** Raising from position `i` of the sequence moves to position `i + 1`, or stays at the top. */
  lemma NextStakeAt(m: Mode, i: nat)
    requires i < |Stakes(m)|
    ensures NextStake(m, Stakes(m)[i]) == Stakes(m)[Min(i + 1, |Stakes(m)| - 1)]
  {
    StakesShape(m);
  }

  /** `n` raises from position `i` of the sequence land on position `i + n`, or on the top. */
  lemma RaiseFromIndex(m: Mode, i: nat, n: nat)
    requires i < |Stakes(m)|
    ensures RaiseTimes(m, Stakes(m)[i], n) == Stakes(m)[Min(i + n, |Stakes(m)| - 1)]
  {
    var s := Stakes(m);
    forall k | 0 <= k < |s|
      ensures RaiseStep(m)(s[k]) == s[Min(k + 1, |s| - 1)]
    {
      NextStakeAt(m, k);
    }
    IterateAlong(RaiseStep(m), s, i, n);
  }

  /** Whatever the stake, as many raises as the sequence is long bring it to 12, and further
      raises keep it there. */
  lemma RaisesReachTop(m: Mode, v: int, n: nat)
    requires n >= |Stakes(m)|
    ensures RaiseTimes(m, v, n) == MaxScore
  {
    var s := Stakes(m);
    var i :| 0 <= i < |s| && s[i] == NextStake(m, v);
    IterateFirst(RaiseStep(m), v, n - 1);
    RaiseFromIndex(m, i, n - 1);
    StakesShape(m);
  }

  /** The translation keys the raise button can show. */
  datatype Label =
    | Value12       // "truco.value_12"
    | ButtonTruco   // "truco.button_truco"
    | ButtonSix     // "truco.button_six"
    | ButtonEight   // "truco.button_eight"
    | ButtonNine    // "truco.button_nine"
    | ButtonTen     // "truco.button_ten"
    | ButtonTwelve  // "truco.button_twelve"
    | ButtonMax     // "truco.button_max"

  /** `getButtonLabel`: the translation key of the raise button. */
  function ButtonLabel(v: int, m: Mode): (l: Label)
    ensures l == Value12 <==> v >= MaxScore
    ensures l == ButtonTruco <==> v == BaseStake(m)
  {
    if v >= 12 then Value12
    else if m == Paulista then
      if v == 1 then ButtonTruco
      else if v == 3 then ButtonSix
      else if v == 6 then ButtonNine
      else if v == 9 then ButtonTwelve
      else ButtonMax
    else
      if v == 2 then ButtonTruco
      else if v == 4 then ButtonSix
      else if v == 6 then ButtonEight
      else if v == 8 then ButtonTen
      else if v == 10 then ButtonTwelve
      else ButtonMax
  }

  /** The key naming a stake value the button raises to. */
  function RaiseKey(n: int): Label
  {
    if n == 6 then ButtonSix
    else if n == 8 then ButtonEight
    else if n == 9 then ButtonNine
    else if n == 10 then ButtonTen
    else if n == 12 then ButtonTwelve
    else ButtonMax
  }

  /** Below the top of the sequence the button is labelled "truco" on a fresh hand and
      otherwise names the stake the press raises to; at 12 and above it shows the 12 label;
      a stake outside the mode's sequence gets the "max" label. */
  lemma ButtonLabelNamesNextStake(v: int, m: Mode)
    ensures v in Stakes(m) && v < MaxScore ==>
      ButtonLabel(v, m) == if v == BaseStake(m) then ButtonTruco else RaiseKey(NextStake(m, v))
    ensures v >= MaxScore ==> ButtonLabel(v, m) == Value12
    ensures v !in Stakes(m) && v < MaxScore ==> ButtonLabel(v, m) == ButtonMax
  {
    var s := Stakes(m);
    if v in s && v < MaxScore {
      var i :| 0 <= i < |s| && s[i] == v;
      NextStakeAt(m, i);
      if m == Paulista {
        if i == 0 {} else if i == 1 {} else if i == 2 {} else if i == 3 {} else {}
      } else {
        if i == 0 {} else if i == 1 {} else if i == 2 {} else if i == 3 {} else if i == 4 {} else {}
      }
    }
  }

  /** `isHandRaised` */
  predicate IsHandRaised(v: int, m: Mode)
  {
    v > BaseStake(m)
  }

  /** On the mode's sequence, the hand is raised exactly when the stake is past the first
      position; a press of the raise button leaves the hand raised exactly when the stake was
      on the sequence (from elsewhere `indexOf` gives -1 and the press lands on the base). */
  lemma IsHandRaisedPosition(v: int, m: Mode)
    ensures v in Stakes(m) ==> (IsHandRaised(v, m) <==> IndexOf(Stakes(m), v) > 0)
    ensures IsHandRaised(NextStake(m, v), m) <==> v in Stakes(m)
  {
    StakesShape(m);
  }

  // ---------------------------------------------------------------------------
  // The point history
  // ---------------------------------------------------------------------------

  /** The points of `t`'s events in `h`. */
  function TeamTotal(h: seq<HistoryItem>, t: Team): int
  {
    if h == [] then 0
    else TeamTotal(h[..|h| - 1], t) + (if h[|h| - 1].team == t then h[|h| - 1].points else 0)
  }

  ghost predicate AllPositive(h: seq<HistoryItem>)
  {
    forall i :: 0 <= i < |h| ==> h[i].points >= 1
  }

  lemma {:induction false} TeamTotalConcat(a: seq<HistoryItem>, b: seq<HistoryItem>, t: Team)
    ensures TeamTotal(a + b, t) == TeamTotal(a, t) + TeamTotal(b, t)
    decreases |b|
  {
    if b == [] {
      assert a + b == a;
    } else {
      assert (a + b)[..|a + b| - 1] == a + b[..|b| - 1];
      TeamTotalConcat(a, b[..|b| - 1], t);
    }
  }

  /** With positive events, a team's total is zero exactly when it has no event, and at least
      one otherwise. */
  lemma {:induction false} TeamTotalSign(h: seq<HistoryItem>, t: Team)
    requires AllPositive(h)
    ensures TeamTotal(h, t) >= 0
    ensures TeamTotal(h, t) == 0 <==> forall j :: 0 <= j < |h| ==> h[j].team != t
  {
    if h != [] {
      TeamTotalSign(h[..|h| - 1], t);
      if forall j :: 0 <= j < |h| ==> h[j].team != t {
      } else {
        assert TeamTotal(h, t) > 0 by {
          var j :| 0 <= j < |h| && h[j].team == t;
          if j < |h| - 1 { assert h[..|h| - 1][j] == h[j]; }
        }
      }
    }
  }

  /** The index of `t`'s most recent event, or -1 if it has none. */
  function LastIndex(h: seq<HistoryItem>, t: Team): (i: int)
    ensures -1 <= i < |h|
    ensures i == -1 ==> forall j :: 0 <= j < |h| ==> h[j].team != t
    ensures 0 <= i ==> h[i].team == t && forall j :: i < j < |h| ==> h[j].team != t
  {
    if h == [] then -1
    else if h[|h| - 1].team == t then |h| - 1
    else LastIndex(h[..|h| - 1], t)
  }

  /** The backward search of `changePoints`: scan from the end, stop at `t`'s first event. */
  method FindLastIndex(h: seq<HistoryItem>, t: Team) returns (foundIndex: int)
    ensures foundIndex == LastIndex(h, t)
  {
    foundIndex := -1;
    var i := |h| - 1;
    while i >= 0
      invariant -1 <= i < |h|
      invariant forall j :: i < j < |h| ==> h[j].team != t
      decreases i
    {
      if h[i].team == t {
        foundIndex := i;
        break;
      }
      i := i - 1;
    }
  }

  /** The history after an undo by `t`: its most recent event loses one point, or is removed
      when it had one point or fewer; without such an event nothing changes. */
  function Undo(h: seq<HistoryItem>, t: Team): (r: seq<HistoryItem>)
    ensures LastIndex(h, t) == -1 ==> r == h
    ensures var i := LastIndex(h, t); 0 <= i && h[i].points > 1 ==>
      && |r| == |h|
      && r[i] == HistoryItem(t, h[i].points - 1)
      && forall j {:trigger r[j]} :: 0 <= j < |h| && j != i ==> r[j] == h[j]
    ensures var i := LastIndex(h, t); 0 <= i && h[i].points <= 1 ==>
      && |r| == |h| - 1
      && (forall j {:trigger r[j]} :: 0 <= j < i ==> r[j] == h[j])
      && (forall j {:trigger r[j]} :: i <= j < |r| ==> r[j] == h[j + 1])
  {
    var i := LastIndex(h, t);
    if i == -1 then h
    else if h[i].points > 1 then h[i := h[i].(points := h[i].points - 1)]
    else h[..i] + h[i + 1..]
  }

  lemma TeamTotalSingle(e: HistoryItem, t: Team)
    ensures TeamTotal([e], t) == if e.team == t then e.points else 0
  {
    assert [e][..0] == [];
  }

  /** A team's total splits around any one event. */
  lemma TeamTotalSplit(h: seq<HistoryItem>, i: nat, t: Team)
    requires i < |h|
    ensures TeamTotal(h, t) == TeamTotal(h[..i], t) + (if h[i].team == t then h[i].points else 0) + TeamTotal(h[i + 1..], t)
  {
    assert h == h[..i] + [h[i]] + h[i + 1..];
    TeamTotalConcat(h[..i] + [h[i]], h[i + 1..], t);
    TeamTotalConcat(h[..i], [h[i]], t);
    TeamTotalSingle(h[i], t);
  }

  /** Replacing one event changes a team's total by the difference of the two events' points
      for that team. */
  lemma TeamTotalReplace(h: seq<HistoryItem>, i: nat, e: HistoryItem, t: Team)
    requires i < |h|
    ensures TeamTotal(h[i := e], t) ==
      TeamTotal(h, t) - (if h[i].team == t then h[i].points else 0) + (if e.team == t then e.points else 0)
  {
    var r := h[i := e];
    assert r[..i] == h[..i] && r[i + 1..] == h[i + 1..];
    TeamTotalSplit(h, i, t);
    TeamTotalSplit(r, i, t);
  }

  /** Removing one event takes its points off that team's total. */
  lemma TeamTotalRemove(h: seq<HistoryItem>, i: nat, t: Team)
    requires i < |h|
    ensures TeamTotal(h[..i] + h[i + 1..], t) == TeamTotal(h, t) - (if h[i].team == t then h[i].points else 0)
  {
    TeamTotalSplit(h, i, t);
    TeamTotalConcat(h[..i], h[i + 1..], t);
  }

  /** An undo lowers the team's total by one point when it has an event and leaves the other
      team's total alone; every event keeps at least one point. */
  lemma UndoTotals(h: seq<HistoryItem>, t: Team)
    requires AllPositive(h)
    ensures AllPositive(Undo(h, t))
    ensures TeamTotal(Undo(h, t), t) == Max(0, TeamTotal(h, t) - 1)
    ensures TeamTotal(Undo(h, t), t.Other()) == TeamTotal(h, t.Other())
  {
    var i := LastIndex(h, t);
    TeamTotalSign(h, t);
    if i != -1 {
      assert TeamTotal(h, t) >= 1 by {
        TeamTotalSplit(h, i, t);
        TeamTotalSign(h[..i], t);
        TeamTotalSign(h[i + 1..], t);
      }
      if h[i].points > 1 {
        var e := h[i].(points := h[i].points - 1);
        TeamTotalReplace(h, i, e, t);
        TeamTotalReplace(h, i, e, t.Other());
      } else {
        TeamTotalRemove(h, i, t);
        TeamTotalRemove(h, i, t.Other());
      }
    }
  }

  /** An undo straight after scoring `v` takes back one point of that very event. */
  lemma UndoAfterScore(h: seq<HistoryItem>, t: Team, v: int)
    ensures Undo(h + [HistoryItem(t, v)], t) == if v > 1 then h + [HistoryItem(t, v - 1)] else h
  {
    var h' := h + [HistoryItem(t, v)];
    assert LastIndex(h', t) == |h|;
    assert h'[..|h|] == h;
  }

  /** The `setPointHistory` callback of `changePoints`: append an event at the stake when
      adding, otherwise search backwards for the team's last event and shrink it by one point
      in place or splice it out. */
  method NextHistory(prev: seq<HistoryItem>, team: Team, isAdding: bool, handValue: int) returns (newHist: seq<HistoryItem>)
    ensures isAdding ==> newHist == prev + [HistoryItem(team, handValue)]
    ensures !isAdding ==> newHist == Undo(prev, team)
  {
    newHist := prev;
    if isAdding {
      newHist := newHist + [HistoryItem(team, handValue)];
    } else {
      var foundIndex := FindLastIndex(newHist, team);
      if foundIndex != -1 {
        var currentPoints := newHist[foundIndex].points;
        if currentPoints > 1 {
          newHist := newHist[foundIndex := newHist[foundIndex].(points := currentPoints - 1)];
        } else {
          newHist := newHist[..foundIndex] + newHist[foundIndex + 1..];
        }
      }
    }
  }

  lemma TeamTotalAppend(h: seq<HistoryItem>, e: HistoryItem, t: Team)
    ensures TeamTotal(h + [e], t) == TeamTotal(h, t) + (if e.team == t then e.points else 0)
  {
    assert (h + [e])[..|h|] == h;
  }

  // ---------------------------------------------------------------------------
  // Names
  // ---------------------------------------------------------------------------

  /** The characters JavaScript's `String.prototype.trim` strips: white space and line
      terminators. */
  predicate IsWhiteSpace(c: char)
  {
    c == '\t' || c == '\n' || c == '\U{000B}' || c == '\U{000C}' || c == '\r' || c == ' '
    || c == '\U{00A0}' || c == '\U{1680}' || ('\U{2000}' <= c <= '\U{200A}')
    || c == '\U{2028}' || c == '\U{2029}' || c == '\U{202F}' || c == '\U{205F}'
    || c == '\U{3000}' || c == '\U{FEFF}'
  }

  function TrimStart(s: string): string
  {
    if s != [] && IsWhiteSpace(s[0]) then TrimStart(s[1..]) else s
  }

  function TrimEnd(s: string): string
  {
    if s != [] && IsWhiteSpace(s[|s| - 1]) then TrimEnd(s[..|s| - 1]) else s
  }

  function Trim(s: string): string
  {
    TrimEnd(TrimStart(s))
  }

  lemma {:induction false} TrimStartEmpty(s: string)
    ensures TrimStart(s) == [] <==> forall i :: 0 <= i < |s| ==> IsWhiteSpace(s[i])
  {
    if s != [] && IsWhiteSpace(s[0]) {
      TrimStartEmpty(s[1..]);
      assert forall i :: 1 <= i < |s| ==> s[i] == s[1..][i - 1];
    }
  }

  lemma {:induction false} TrimEndEmpty(s: string)
    ensures TrimEnd(s) == [] <==> forall i :: 0 <= i < |s| ==> IsWhiteSpace(s[i])
  {
    if s != [] && IsWhiteSpace(s[|s| - 1]) {
      TrimEndEmpty(s[..|s| - 1]);
      assert forall i :: 0 <= i < |s| - 1 ==> s[i] == s[..|s| - 1][i];
    }
  }

  lemma {:induction false} TrimStartHead(s: string)
    ensures TrimStart(s) != [] ==> !IsWhiteSpace(TrimStart(s)[0])
  {
    if s != [] && IsWhiteSpace(s[0]) {
      TrimStartHead(s[1..]);
    }
  }

  /** A name survives `trim()` exactly when it has a character that is not white space. */
  lemma TrimmedNonEmpty(s: string)
    ensures Trim(s) != [] <==> exists i :: 0 <= i < |s| && !IsWhiteSpace(s[i])
  {
    TrimStartEmpty(s);
    TrimStartHead(s);
    TrimEndEmpty(TrimStart(s));
  }

  // ---------------------------------------------------------------------------
  // The screen state and its handlers
  // ---------------------------------------------------------------------------

  /** A team's score against the points of its events: within [0, 12], at most the points,
      and equal to them while no addition has been cut down by the cap. */
  ghost predicate Tracks(score: int, total: int, exact: bool)
  {
    0 <= score <= MaxScore && score <= total && (exact ==> score == total)
  }

  /** A team's score after one press of its plus (`isAdding`, worth the stake `hv`) or minus
      button, given a score that already lies in [0, 12]: capped at 12, floored at zero. */
  function ScoreAfter(score: int, isAdding: bool, hv: int): int
  {
    if isAdding then Min(MaxScore, score + hv) else Max(0, score - 1)
  }

  /** One `changePoints` step keeps a team's score tracking its events: adding `hv` raises
      the score to at most 12 and the events by `hv`; an undo lowers both by one, floored at
      zero. The other team's events are untouched and every event keeps at least one point. */
  lemma ScoreStepTracks(h: seq<HistoryItem>, h': seq<HistoryItem>, team: Team, isAdding: bool, hv: int, score: int, exact: bool)
    requires AllPositive(h) && hv >= 1
    requires Tracks(score, TeamTotal(h, team), exact)
    requires h' == if isAdding then h + [HistoryItem(team, hv)] else Undo(h, team)
    ensures AllPositive(h')
    ensures TeamTotal(h', team.Other()) == TeamTotal(h, team.Other())
    ensures Tracks(ScoreAfter(score, isAdding, hv), TeamTotal(h', team), exact && (!isAdding || score + hv <= MaxScore))
  {
    if isAdding {
      TeamTotalAppend(h, HistoryItem(team, hv), team);
      TeamTotalAppend(h, HistoryItem(team, hv), team.Other());
    } else {
      UndoTotals(h, team);
    }
  }

  class Scoreboard {
    var scoreUs: int
    var scoreThem: int
    var handValue: int
    var gameMode: Mode
    var matchWinsUs: int
    var matchWinsThem: int
    var pointHistory: seq<HistoryItem>
    var nameUs: string
    var nameThem: string
    /** Per team: no addition since the last reset was cut down by the 12-point cap. */
    ghost var exactUs: bool
    ghost var exactThem: bool

    /** Scores within [0, 12], the trophy counters within [0, 5], a stake of at least one
        point, every event worth at least one point, and each score at most the points of
        that team's events, equal to them while the cap has not cut anything off. */
    ghost predicate Valid()
      reads this
    {
      && 1 <= handValue <= MaxScore
      && 0 <= matchWinsUs <= MaxMatchWins && 0 <= matchWinsThem <= MaxMatchWins
      && AllPositive(pointHistory)
      && Tracks(scoreUs, TeamTotal(pointHistory, Us), exactUs)
      && Tracks(scoreThem, TeamTotal(pointHistory, Them), exactThem)
    }

    function Score(t: Team): int
      reads this
    {
      if t == Us then scoreUs else scoreThem
    }

    function MatchWins(t: Team): int
      reads this
    {
      if t == Us then matchWinsUs else matchWinsThem
    }

    ghost function Exact(t: Team): bool
      reads this
    {
      if t == Us then exactUs else exactThem
    }

    /** The screen's initial state; the default team names are translations, passed in. */
    constructor (defaultNameUs: string, defaultNameThem: string)
      ensures Valid()
      ensures scoreUs == 0 && scoreThem == 0 && handValue == 1 && gameMode == Paulista
      ensures matchWinsUs == 0 && matchWinsThem == 0 && pointHistory == []
      ensures nameUs == defaultNameUs && nameThem == defaultNameThem
    {
      scoreUs, scoreThem := 0, 0;
      handValue := 1;
      gameMode := Paulista;
      matchWinsUs, matchWinsThem := 0, 0;
      pointHistory := [];
      nameUs, nameThem := defaultNameUs, defaultNameThem;
      exactUs, exactThem := true, true;
    }

    /** `resetGame(fullReset)`: both scores zero, no history, the mode's base stake; the
        trophy counters are zeroed only on a full reset. */
    method ResetGame(fullReset: bool)
      requires Valid()
      modifies this
      ensures Valid()
      ensures scoreUs == 0 && scoreThem == 0 && pointHistory == []
      ensures handValue == BaseStake(gameMode) && !IsHandRaised(handValue, gameMode)
      ensures fullReset ==> matchWinsUs == 0 && matchWinsThem == 0
      ensures !fullReset ==> matchWinsUs == old(matchWinsUs) && matchWinsThem == old(matchWinsThem)
      ensures gameMode == old(gameMode) && nameUs == old(nameUs) && nameThem == old(nameThem)
    {
      scoreUs := 0;
      scoreThem := 0;
      handValue := BaseStake(gameMode);
      pointHistory := [];
      if fullReset {
        matchWinsUs := 0;
        matchWinsThem := 0;
      }
      exactUs, exactThem := true, true;
    }

    /** `resetHandStake`: back to the mode's base stake. */
    method ResetHandStake()
      requires Valid()
      modifies this`handValue
      ensures Valid()
      ensures handValue == BaseStake(gameMode) && !IsHandRaised(handValue, gameMode)
    {
      handValue := BaseStake(gameMode);
    }

    /** `handleVictory`: the winner's trophy counter goes up by one, capped at five. */
    method HandleVictory(winner: Team)
      modifies this`matchWinsUs, this`matchWinsThem
      ensures MatchWins(winner) == Min(old(MatchWins(winner)) + 1, MaxMatchWins)
      ensures MatchWins(winner.Other()) == old(MatchWins(winner.Other()))
    {
      if winner == Us {
        matchWinsUs := Min(matchWinsUs + 1, MaxMatchWins);
      } else {
        matchWinsThem := Min(matchWinsThem + 1, MaxMatchWins);
      }
    }

    /** `changePoints(team, amount)`. A positive amount scores the current stake: one event
        appended, the score raised and capped at 12, a victory (and a trophy, capped at five)
        when 12 is reached, and the stake back to the base. Any other amount is an undo: the
        score lowered by one and floored at zero, and the team's most recent event trimmed.
        `victory` reports that the game-over dialog opens. */
    method ChangePoints(team: Team, amount: int) returns (victory: bool)
      requires Valid()
      modifies this
      ensures Valid()
      ensures gameMode == old(gameMode) && nameUs == old(nameUs) && nameThem == old(nameThem)
      ensures Score(team.Other()) == old(Score(team.Other()))
      ensures MatchWins(team.Other()) == old(MatchWins(team.Other()))
      ensures amount > 0 ==>
        && pointHistory == old(pointHistory) + [HistoryItem(team, old(handValue))]
        && Score(team) == Min(MaxScore, old(Score(team)) + old(handValue))
        && victory == (old(Score(team)) + old(handValue) >= MaxScore)
        && MatchWins(team) == (if victory then Min(old(MatchWins(team)) + 1, MaxMatchWins) else old(MatchWins(team)))
        && handValue == BaseStake(gameMode)
      ensures amount <= 0 ==>
        && pointHistory == Undo(old(pointHistory), team)
        && Score(team) == Max(0, old(Score(team)) - 1)
        && !victory
        && MatchWins(team) == old(MatchWins(team))
        && handValue == old(handValue)
    {
      var isAdding := amount > 0;

      var newHist := NextHistory(pointHistory, team, isAdding, handValue);
      ScoreStepTracks(pointHistory, newHist, team, isAdding, handValue, Score(team), Exact(team));
      pointHistory := newHist;

      victory := ApplyPoints(team, isAdding, handValue);
      if isAdding {
        handValue := BaseStake(gameMode);
      }
    }

    /** The score half of `changePoints`: the team's score goes up by the stake when adding
        and down by one otherwise, floored at zero; reaching 12 while adding is a victory,
        which sets the score to exactly 12 and counts a trophy. */
    method ApplyPoints(team: Team, isAdding: bool, stake: int) returns (victory: bool)
      requires 0 <= Score(team) && 1 <= stake
      modifies this`scoreUs, this`scoreThem, this`matchWinsUs, this`matchWinsThem, this`exactUs, this`exactThem
      ensures victory == (isAdding && old(Score(team)) + stake >= MaxScore)
      ensures Score(team) == ScoreAfter(old(Score(team)), isAdding, stake)
      ensures MatchWins(team) == if victory then Min(old(MatchWins(team)) + 1, MaxMatchWins) else old(MatchWins(team))
      ensures Exact(team) == (old(Exact(team)) && (!isAdding || old(Score(team)) + stake <= MaxScore))
      ensures Score(team.Other()) == old(Score(team.Other()))
      ensures MatchWins(team.Other()) == old(MatchWins(team.Other()))
      ensures Exact(team.Other()) == old(Exact(team.Other()))
    {
      var points := if isAdding then stake else -1;
      victory := false;
      if team == Us {
        var newScore := Max(0, scoreUs + points);
        if newScore >= MaxScore && isAdding {
          HandleVictory(Us);
          victory := true;
          scoreUs := MaxScore;
        } else {
          scoreUs := newScore;
        }
        exactUs := exactUs && (!isAdding || old(scoreUs) + points <= MaxScore);
      } else {
        var newScore := Max(0, scoreThem + points);
        if newScore >= MaxScore && isAdding {
          HandleVictory(Them);
          victory := true;
          scoreThem := MaxScore;
        } else {
          scoreThem := newScore;
        }
        exactThem := exactThem && (!isAdding || old(scoreThem) + points <= MaxScore);
      }
    }

    /** `increaseStakes` */
    method IncreaseStakes()
      requires Valid()
      modifies this`handValue
      ensures Valid()
      ensures handValue == NextStake(gameMode, old(handValue))
    {
      var sequence := Stakes(gameMode);
      var currentIndex := IndexOf(sequence, handValue);
      if currentIndex < |sequence| - 1 {
        handValue := sequence[currentIndex + 1];
      }
      StakesShape(gameMode);
    }

    /** Choosing a mode in the settings. The mode-change effect runs only when the mode
        actually changes, and then performs a full reset if both scores are zero; otherwise
        scores, history and stake are kept as they are. */
    method SetGameMode(m: Mode)
      requires Valid()
      modifies this
      ensures Valid()
      ensures gameMode == m && nameUs == old(nameUs) && nameThem == old(nameThem)
      ensures m != old(gameMode) && old(scoreUs) == 0 && old(scoreThem) == 0 ==>
        && scoreUs == 0 && scoreThem == 0 && pointHistory == []
        && handValue == BaseStake(m) && matchWinsUs == 0 && matchWinsThem == 0
      ensures !(m != old(gameMode) && old(scoreUs) == 0 && old(scoreThem) == 0) ==>
        && scoreUs == old(scoreUs) && scoreThem == old(scoreThem)
        && pointHistory == old(pointHistory) && handValue == old(handValue)
        && matchWinsUs == old(matchWinsUs) && matchWinsThem == old(matchWinsThem)
    {
      if m != gameMode {
        gameMode := m;
        if scoreUs == 0 && scoreThem == 0 {
          ResetGame(true);
        }
      }
    }

    /** The name editor's save: the name is stored as typed, unless it is blank after `trim()`. */
    method SaveName(team: Team, newName: string) returns (saved: bool)
      requires Valid()
      modifies this`nameUs, this`nameThem
      ensures Valid()
      ensures saved <==> exists i :: 0 <= i < |newName| && !IsWhiteSpace(newName[i])
      ensures team == Us ==> nameUs == (if saved then newName else old(nameUs)) && nameThem == old(nameThem)
      ensures team == Them ==> nameThem == (if saved then newName else old(nameThem)) && nameUs == old(nameUs)
    {
      TrimmedNonEmpty(newName);
      saved := Trim(newName) != [];
      if saved {
        if team == Us { nameUs := newName; } else { nameThem := newName; }
      }
    }
  }
}
