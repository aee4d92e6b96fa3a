/** The Cacheta scoreboard: a roster of players, each with a per-round history of actions
    and a pending action for the round being played. A player's points are never stored:
    they are a fold over that player's history, starting from `initialPoints`. */
module Cacheta {

  datatype Option<T> = None | Some(value: T)

  /** The outcome a player is given in one round. `NoAction` is the source's `null`; it also
      stands for the `undefined` holes that writing past the end of a history leaves behind,
      which every reader of a history treats exactly like `null`. */
  datatype Action = Won | Fold | Lost | NoAction

  datatype Player = Player(id: string, name: string, history: seq<Action>, currentAction: Action)

  const DefaultInitialPoints: int := 10

  // ---------------------------------------------------------------------------
  // Points: a fold over the history
  // ---------------------------------------------------------------------------

  /** How many rounds of `h` hold `a`, counted front to back. */
  function Count(h: seq<Action>, a: Action): (n: nat)
    ensures n <= |h|
  {
    if h == [] then 0 else Count(h[..|h| - 1], a) + (if h[|h| - 1] == a then 1 else 0)
  }

  /** The points a player with history `h` shows: the starting points less one per fold and
      two per loss, floored at zero. */
  function Points(initial: int, h: seq<Action>): int
  {
    var raw := initial - Count(h, Fold) - 2 * Count(h, Lost);
    if raw < 0 then 0 else raw
  }

  /** The `forEach` accumulator of the points column: start at `initial`, subtract each
      round's cost, then clamp at zero. */
  method CurrentPoints(initial: int, h: seq<Action>) returns (pts: int)
    ensures pts == Points(initial, h)
    ensures pts >= 0
  {
    pts := initial;
    for i := 0 to |h|
      invariant pts == initial - Count(h[..i], Fold) - 2 * Count(h[..i], Lost)
    {
      assert h[..i + 1][..i] == h[..i];
      if h[i] == Fold { pts := pts - 1; }
      if h[i] == Lost { pts := pts - 2; }
    }
    assert h[..|h|] == h;
    if pts < 0 { pts := 0; }
  }

  /** The count agrees with the multiplicity of the action in the history's multiset. */
  lemma {:induction false} CountIsMultiplicity(h: seq<Action>, a: Action)
    ensures Count(h, a) == multiset(h)[a]
  {
    if h != [] {
      CountIsMultiplicity(h[..|h| - 1], a);
      assert h == h[..|h| - 1] + [h[|h| - 1]];
    }
  }

  /** Points depend only on which actions were recorded, not on the rounds they were in. */
  lemma PointsIgnoreOrder(initial: int, h1: seq<Action>, h2: seq<Action>)
    requires multiset(h1) == multiset(h2)
    ensures Points(initial, h1) == Points(initial, h2)
  {
    CountIsMultiplicity(h1, Fold); CountIsMultiplicity(h2, Fold);
    CountIsMultiplicity(h1, Lost); CountIsMultiplicity(h2, Lost);
  }

  lemma CountAppend(h: seq<Action>, a: Action, b: Action)
    ensures Count(h + [a], b) == Count(h, b) + (if a == b then 1 else 0)
  {
    assert (h + [a])[..|h|] == h;
  }

  /** A new round never raises a player's points; a win or no action leaves them as they were,
      so a player at zero stays at zero. */
  lemma PointsNeverRise(initial: int, h: seq<Action>, a: Action)
    ensures Points(initial, h + [a]) <= Points(initial, h)
    ensures a == Won || a == NoAction ==> Points(initial, h + [a]) == Points(initial, h)
    ensures Points(initial, h) == 0 ==> Points(initial, h + [a]) == 0
  {
    CountAppend(h, a, Fold);
    CountAppend(h, a, Lost);
  }

  /** Deleting round `k` gives back exactly what that round cost. */
  lemma RemoveRoundCount(h: seq<Action>, k: nat, a: Action)
    requires k < |h|
    ensures Count(RemoveAt(h, k), a) == Count(h, a) - (if h[k] == a then 1 else 0)
  {
    assert h == h[..k] + [h[k]] + h[k + 1..];
    CountIsMultiplicity(h, a);
    CountIsMultiplicity(RemoveAt(h, k), a);
  }

  // ---------------------------------------------------------------------------
  // Sequence edits used by the handlers
  // ---------------------------------------------------------------------------

  /** `players.map(f)` */
  function Map(ps: seq<Player>, f: Player -> Player): (r: seq<Player>)
    ensures |r| == |ps|
    ensures forall i :: 0 <= i < |ps| ==> r[i] == f(ps[i])
  {
    if ps == [] then [] else [f(ps[0])] + Map(ps[1..], f)
  }

  /** `players.filter(p => p.id !== id)` */
  function Without(ps: seq<Player>, id: string): (r: seq<Player>)
    ensures |r| <= |ps|
    ensures forall p :: p in r <==> p in ps && p.id != id
  {
    if ps == [] then []
    else
      assert ps == [ps[0]] + ps[1..];
      (if ps[0].id != id then [ps[0]] else []) + Without(ps[1..], id)
  }

  /** Filtering distributes over concatenation: the kept players stay in their order. */
  lemma {:induction false} WithoutConcat(a: seq<Player>, b: seq<Player>, id: string)
    ensures Without(a + b, id) == Without(a, id) + Without(b, id)
  {
    if a == [] {
      assert a + b == b;
    } else {
      assert (a + b)[0] == a[0];
      assert (a + b)[1..] == a[1..] + b;
      WithoutConcat(a[1..], b, id);
    }
  }

  /** `playersWithPoints.filter(p => p.currentPoints > 0)` */
  function Alive(ps: seq<Player>, initial: int): (r: seq<Player>)
    ensures |r| <= |ps|
    ensures forall p :: p in r <==> p in ps && Points(initial, p.history) > 0
  {
    if ps == [] then []
    else
      assert ps == [ps[0]] + ps[1..];
      (if Points(initial, ps[0].history) > 0 then [ps[0]] else []) + Alive(ps[1..], initial)
  }

  /** `players.some(p => p.currentAction === 'won')` */
  predicate HasWinner(ps: seq<Player>)
  {
    exists i :: 0 <= i < |ps| && ps[i].currentAction == Won
  }

  /** The guard of the next-round handler: a winner was chosen, or nobody has points left. */
  predicate CanCommit(ps: seq<Player>, initial: int)
  {
    HasWinner(ps) || |Alive(ps, initial)| == 0
  }

  /** The commit guard, stated without the filter: the round is refused exactly when nobody
      won and some player still has points. */
  lemma CommitGuard(ps: seq<Player>, initial: int)
    ensures !CanCommit(ps, initial) <==>
      !HasWinner(ps) && exists i :: 0 <= i < |ps| && Points(initial, ps[i].history) > 0
  {
    var alive := Alive(ps, initial);
    if |alive| > 0 {
      assert alive[0] in alive;
      var i :| 0 <= i < |ps| && ps[i] == alive[0];
    }
    if exists i :: 0 <= i < |ps| && Points(initial, ps[i].history) > 0 {
      var i :| 0 <= i < |ps| && Points(initial, ps[i].history) > 0;
      assert ps[i] in alive;
    }
  }

  /** Selecting `chosen` over a cell that holds `current`: the same action again clears it. */
  function Toggle(current: Action, chosen: Action): Action
  {
    if chosen == current then NoAction else chosen
  }

  /** Toggling the same action twice gives the cell back exactly when it was empty or already
      held that action; from any other action it ends up cleared. */
  lemma ToggleTwice(current: Action, chosen: Action)
    ensures Toggle(Toggle(current, chosen), chosen) == current <==> current == NoAction || current == chosen
    ensures Toggle(Toggle(current, chosen), chosen) != current ==> Toggle(Toggle(current, chosen), chosen) == NoAction
  {
  }

  /** `history[k]`, where a read past the end yields `undefined`, read as no action. */
  function CellAt(h: seq<Action>, k: nat): Action
  {
    if k < |h| then h[k] else NoAction
  }

  /** `newH[k] = v` on a copy of `h`: past the end, the array grows to `k + 1` cells with holes. */
  function SetCell(h: seq<Action>, k: nat, v: Action): (r: seq<Action>)
    ensures |r| == if k < |h| then |h| else k + 1
    ensures r[k] == v
    ensures forall j :: 0 <= j < |r| && j != k ==> r[j] == CellAt(h, j)
  {
    if k < |h| then h[k := v] else h + seq(k - |h|, _ => NoAction) + [v]
  }

  /** `h.splice(k, 1)` on a copy of `h`: no change when `k` is past the end. */
  function RemoveAt(h: seq<Action>, k: nat): (r: seq<Action>)
    ensures k < |h| ==> |r| == |h| - 1
    ensures k < |h| ==> forall j {:trigger r[j]} :: 0 <= j < k ==> r[j] == h[j]
    ensures k < |h| ==> forall j {:trigger r[j]} :: k <= j < |r| ==> r[j] == h[j + 1]
    ensures k >= |h| ==> r == h
  {
    if k < |h| then h[..k] + h[k + 1..] else h
  }

  /** Deleting the round that was just appended gives the history back. */
  lemma RemoveLastRound(h: seq<Action>, a: Action)
    ensures RemoveAt(h + [a], |h|) == h
  {
    assert (h + [a])[..|h|] == h;
  }

  // ---------------------------------------------------------------------------
  // Per-player updates (the bodies of the handlers' `map` callbacks)
  // ---------------------------------------------------------------------------

  function CommitPlayer(p: Player): Player
  {
    p.(history := p.history + [p.currentAction], currentAction := NoAction)
  }

  function ResetPlayer(p: Player): Player
  {
    p.(history := [], currentAction := NoAction)
  }

  function UpdatePlayer(p: Player, pId: string, action: Action, isHistory: bool, editingRoundIdx: Option<nat>): Player
  {
    if p.id != pId then p
    else if isHistory && editingRoundIdx.Some? then
      var k := editingRoundIdx.value;
      p.(history := SetCell(p.history, k, Toggle(CellAt(p.history, k), action)))
    else p.(currentAction := Toggle(p.currentAction, action))
  }

  function RenamePlayer(p: Player, pId: string, newName: string): Player
  {
    if p.id == pId then p.(name := newName) else p
  }

  function DropRound(p: Player, k: nat): Player
  {
    p.(history := RemoveAt(p.history, k))
  }

  /** Every player has played the same number of rounds. */
  ghost predicate LockStep(ps: seq<Player>)
  {
    forall i, j :: 0 <= i < |ps| && 0 <= j < |ps| ==> |ps[i].history| == |ps[j].history|
  }

  /** Adding a player with an empty history keeps the rounds aligned only while no round has
      been played. */
  lemma AddPlayerLockStep(ps: seq<Player>, np: Player)
    requires np.history == []
    ensures LockStep(ps + [np]) <==> forall i :: 0 <= i < |ps| ==> ps[i].history == []
  {
    var qs := ps + [np];
    if LockStep(qs) {
      forall i | 0 <= i < |ps| ensures ps[i].history == [] {
        assert qs[i] == ps[i] && qs[|ps|] == np;
      }
    }
  }

  /** The character of the decimal digit `d`. */
  function DigitChar(d: nat): (c: char)
    requires d < 10
    ensures '0' <= c <= '9' && c as int - '0' as int == d
  {
    ('0' as int + d) as char
  }

  /** Decimal digits of a natural number, as a template literal prints it. */
  function NatToString(n: nat): (s: string)
    ensures |s| >= 1
    ensures forall i :: 0 <= i < |s| ==> '0' <= s[i] <= '9'
    ensures s[0] == '0' ==> n == 0
    decreases n
  {
    if n < 10 then [DigitChar(n)] else NatToString(n / 10) + [DigitChar(n % 10)]
  }

  /** The value a string of decimal digits denotes. */
  function DecimalValue(s: string): nat
    requires forall i :: 0 <= i < |s| ==> '0' <= s[i] <= '9'
  {
    if s == [] then 0 else DecimalValue(s[..|s| - 1]) * 10 + (s[|s| - 1] as int - '0' as int)
  }

  /** The printed number reads back as the same number. */
  lemma {:induction false} NatToStringRoundTrip(n: nat)
    ensures DecimalValue(NatToString(n)) == n
    decreases n
  {
    if n >= 10 {
      var q, d := n / 10, n % 10;
      NatToStringRoundTrip(q);
      var s := NatToString(n);
      assert s == NatToString(q) + [DigitChar(d)];
      assert s[..|s| - 1] == NatToString(q);
      assert s[|s| - 1] as int - '0' as int == d;
      assert DecimalValue(s) == DecimalValue(NatToString(q)) * 10 + d;
      assert n == q * 10 + d;
    }
  }

  /** The placeholder name of the `n`-th player. */
  function PlaceholderName(n: nat): string
  {
    "JOGADOR " + NatToString(n)
  }

  // ---------------------------------------------------------------------------
  // The screen state and its handlers
  // ---------------------------------------------------------------------------

  class Scoreboard {
    var players: seq<Player>
    var initialPoints: int

    /** The screen's initial state: three players, ten starting points. */
    constructor ()
      ensures players == [Player("1", PlaceholderName(1), [], NoAction),
                          Player("2", PlaceholderName(2), [], NoAction),
                          Player("3", PlaceholderName(3), [], NoAction)]
      ensures initialPoints == DefaultInitialPoints
      ensures LockStep(players)
    {
      players := [Player("1", PlaceholderName(1), [], NoAction),
                  Player("2", PlaceholderName(2), [], NoAction),
                  Player("3", PlaceholderName(3), [], NoAction)];
      initialPoints := DefaultInitialPoints;
    }

    /** The starting-points setter; parsing the typed text is not part of this model. */
    method SetInitialPoints(n: int)
      modifies this
      ensures initialPoints == n && players == old(players)
    {
      initialPoints := n;
    }

    /** The points column: `playersWithPoints`. */
    method PlayersPoints() returns (pts: seq<int>)
      ensures |pts| == |players|
      ensures forall i :: 0 <= i < |players| ==> pts[i] == Points(initialPoints, players[i].history)
    {
      pts := [];
      for i := 0 to |players|
        invariant |pts| == i
        invariant forall j :: 0 <= j < i ==> pts[j] == Points(initialPoints, players[j].history)
      {
        var p := CurrentPoints(initialPoints, players[i].history);
        pts := pts + [p];
      }
    }

    /** `handleNextRound`: refused (the "need a winner" alert) with nothing changed when nobody
        won and someone still has points; otherwise every player's pending action, possibly
        none, is appended to that player's history and cleared. */
    method NextRound() returns (accepted: bool)
      modifies this
      ensures accepted == CanCommit(old(players), old(initialPoints))
      ensures initialPoints == old(initialPoints)
      ensures !accepted ==> players == old(players)
      ensures accepted ==> |players| == |old(players)|
      ensures accepted ==> forall i :: 0 <= i < |players| ==>
        && players[i].id == old(players)[i].id
        && players[i].name == old(players)[i].name
        && players[i].history == old(players)[i].history + [old(players)[i].currentAction]
        && players[i].currentAction == NoAction
      ensures LockStep(old(players)) ==> LockStep(players)
    {
      var hasWinner := HasWinner(players);
      var alive := Alive(players, initialPoints);
      if !hasWinner && |alive| > 0 {
        accepted := false;
        return;
      }
      accepted := true;
      players := Map(players, CommitPlayer);
    }

    /** `handleReset` (after the confirmation): every history emptied, every pending action
        cleared; roster, ids, names and starting points kept. */
    method Reset()
      modifies this
      ensures initialPoints == old(initialPoints)
      ensures |players| == |old(players)|
      ensures forall i :: 0 <= i < |players| ==>
        && players[i].id == old(players)[i].id
        && players[i].name == old(players)[i].name
        && players[i].history == []
        && players[i].currentAction == NoAction
      ensures LockStep(players)
      ensures forall i :: 0 <= i < |players| ==> Points(initialPoints, players[i].history) == if initialPoints < 0 then 0 else initialPoints
    {
      players := Map(players, ResetPlayer);
    }

    /** `updateAction`: only the players with id `pId` change. In history mode with a round
        selected only that round's cell is toggled; otherwise the pending action is. */
    method UpdateAction(pId: string, action: Action, isHistory: bool, editingRoundIdx: Option<nat>)
      modifies this
      ensures initialPoints == old(initialPoints)
      ensures |players| == |old(players)|
      ensures forall i :: 0 <= i < |players| && old(players)[i].id != pId ==> players[i] == old(players)[i]
      ensures forall i :: 0 <= i < |players| && old(players)[i].id == pId ==>
        && players[i].id == old(players)[i].id
        && players[i].name == old(players)[i].name
        && (if isHistory && editingRoundIdx.Some? then
              && players[i].currentAction == old(players)[i].currentAction
              && players[i].history == SetCell(old(players)[i].history, editingRoundIdx.value,
                                               Toggle(CellAt(old(players)[i].history, editingRoundIdx.value), action))
            else
              && players[i].history == old(players)[i].history
              && players[i].currentAction == Toggle(old(players)[i].currentAction, action))
      ensures LockStep(old(players)) && (isHistory && editingRoundIdx.Some? ==>
                forall i :: 0 <= i < |old(players)| ==> editingRoundIdx.value < |old(players)[i].history|)
              ==> LockStep(players)
    {
      players := Map(players, p => UpdatePlayer(p, pId, action, isHistory, editingRoundIdx));
    }

    /** `handleSaveHistory`: the round editor closes only if some player won the round being
        edited; nothing is modified either way. */
    method SaveHistory(editingRoundIdx: Option<nat>) returns (closed: bool)
      ensures closed <==> (editingRoundIdx.None? ||
        exists i :: 0 <= i < |players| && CellAt(players[i].history, editingRoundIdx.value) == Won)
    {
      closed := true;
      if editingRoundIdx.Some? {
        var k := editingRoundIdx.value;
        var hasWinner := false;
        for i := 0 to |players|
          invariant hasWinner <==> exists j :: 0 <= j < i && CellAt(players[j].history, k) == Won
        {
          if CellAt(players[i].history, k) == Won { hasWinner := true; }
        }
        closed := hasWinner;
      }
    }

    /** The delete-round confirmation: round `k` is spliced out of every history. */
    method DeleteRound(k: nat)
      modifies this
      ensures initialPoints == old(initialPoints)
      ensures |players| == |old(players)|
      ensures forall i :: 0 <= i < |players| ==>
        && players[i].id == old(players)[i].id
        && players[i].name == old(players)[i].name
        && players[i].currentAction == old(players)[i].currentAction
        && players[i].history == RemoveAt(old(players)[i].history, k)
      ensures LockStep(old(players)) ==> LockStep(players)
    {
      players := Map(players, p => DropRound(p, k));
    }

    /** `handleDeletePlayer` (after the confirmation): every player with id `id` is removed,
        the others stay in order. */
    method DeletePlayer(id: string)
      modifies this
      ensures initialPoints == old(initialPoints)
      ensures players == Without(old(players), id)
      ensures forall p :: p in players <==> p in old(players) && p.id != id
      ensures LockStep(old(players)) ==> LockStep(players)
    {
      players := Without(players, id);
    }

    /** The add button: one player appended with a fresh id, no history, no pending action and
        the next placeholder name. The rounds stay aligned only if none has been played. */
    method AddPlayer(freshId: string)
      modifies this
      ensures initialPoints == old(initialPoints)
      ensures players == old(players) + [Player(freshId, PlaceholderName(|old(players)| + 1), [], NoAction)]
      ensures LockStep(players) <==> forall i :: 0 <= i < |old(players)| ==> old(players)[i].history == []
    {
      var np := Player(freshId, PlaceholderName(|players| + 1), [], NoAction);
      AddPlayerLockStep(players, np);
      players := players + [np];
    }

    /** The name editor's save: every player with id `pId` gets `newName`; nothing else changes. */
    method Rename(pId: string, newName: string)
      modifies this
      ensures initialPoints == old(initialPoints)
      ensures |players| == |old(players)|
      ensures forall i :: 0 <= i < |players| ==>
        players[i] == if old(players)[i].id == pId then old(players)[i].(name := newName) else old(players)[i]
      ensures LockStep(old(players)) ==> LockStep(players)
    {
      players := Map(players, p => RenamePlayer(p, pId, newName));
    }
  }
}
