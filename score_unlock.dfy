/** The `updateScore` cloud function: it adds the points a game reports to
    the player's stored total, unlocks every game whose threshold the new
    total reaches, writes the user record and a history entry, and answers
    with the old and new totals and the unlocked list.

    The database is abstracted: the user query's result is a parameter,
    and so is the await, if any, that throws. The two writes the function
    performs are returned as a list of `Write` values. */
module ScoreUnlock {
  import opened Common

  /** The score needed to unlock each game: the first is unlocked from the
      start, the second at 1000 points, the third at 3000. */
  const Thresholds: seq<real> := [0.0, 1000.0, 3000.0]

  /** `event.score` as it arrives: absent, something that is not a usable
      number (another type, or NaN), or a number. */
  datatype ScoreArg = Absent | NotANumber | Number(value: real)

  datatype Request = Request(score: ScoreArg, gameIndex: int)

  /** A stored user record: both fields may be missing (None). */
  datatype User = User(score: Option<real>, unlockedGames: Option<seq<int>>)

  /** The await that throws, if any: the user query, the record update or
      the history insert. */
  datatype Failure = NoFailure | QueryFails | UpdateFails | HistoryFails

  /** The two database writes: the user's new total and unlocked list, and
      one row of score history. */
  datatype Write =
    | SetUser(score: real, unlockedGames: seq<int>)
    | AddHistory(gameIndex: int, score: real, totalScore: real)

  datatype Error = InvalidScore | UserMissing | DatabaseError

  datatype Response =
    | Failed(error: Error)
    | Succeeded(previousScore: real, newScore: real, addedScore: real,
                unlockedGames: seq<int>, newUnlocks: bool)

  /** The argument check: a missing, non-numeric, zero or negative score
      is refused. */
  predicate ValidScore(arg: ScoreArg)
  {
    arg.Number? && arg.value > 0.0
  }

  /** `userData.score || 0`. */
  function StoredScore(u: User): (r: real)
    ensures u.score.None? ==> r == 0.0
    ensures u.score.Some? ==> r == u.score.value
  {
    match u.score
    case None => 0.0
    case Some(v) => v
  }

  /** `userData.unlockedGames || [0]`: a record without the list has the
      first game unlocked. */
  function StartList(u: User): (r: seq<int>)
    ensures u.unlockedGames.None? ==> r == [0]
    ensures u.unlockedGames.Some? ==> r == u.unlockedGames.value
  {
    match u.unlockedGames
    case None => [0]
    case Some(games) => games
  }

  /** The game indices below `n` that the unlock loop appends to `list`
      for the total `score`, in the order it appends them. */
  function Fresh(list: seq<int>, score: real, n: nat): seq<int>
    requires n <= |Thresholds|
  {
    if n == 0 then []
    else Fresh(list, score, n - 1)
         + (if n - 1 !in list && score >= Thresholds[n - 1] then [n - 1] else [])
  }

  /** The unlocked list after the loop. */
  function Unlocked(list: seq<int>, score: real): seq<int>
  {
    list + Fresh(list, score, |Thresholds|)
  }

  /** An index is appended exactly when it is a game index below `n` that
      is not yet unlocked and whose threshold the total reaches. */
  lemma {:induction false} FreshMembers(list: seq<int>, score: real, n: nat)
    requires n <= |Thresholds|
    ensures forall k :: k in Fresh(list, score, n) <==> 0 <= k < n && k !in list && score >= Thresholds[k]
  {
    if n > 0 {
      FreshMembers(list, score, n - 1);
    }
  }

  predicate Ascending(s: seq<int>)
  {
    forall p, q :: 0 <= p < q < |s| ==> s[p] < s[q]
  }

  /** The appended indices come in strictly increasing order. */
  lemma {:induction false} FreshAscending(list: seq<int>, score: real, n: nat)
    requires n <= |Thresholds|
    ensures Ascending(Fresh(list, score, n))
  {
    if n > 0 {
      FreshAscending(list, score, n - 1);
      FreshMembers(list, score, n - 1);
      var f := Fresh(list, score, n - 1);
      var g := Fresh(list, score, n);
      assert g == f + (if n - 1 !in list && score >= Thresholds[n - 1] then [n - 1] else []);
      forall p, q | 0 <= p < q < |g|
        ensures g[p] < g[q]
      {
        if q >= |f| {
          assert g[p] == f[p] && f[p] in f && g[q] == n - 1;
        } else {
          assert g[p] == f[p] && g[q] == f[q];
        }
      }
    }
  }

  /** Nothing is appended when every index below `n` that qualifies is
      already unlocked. */
  lemma FreshEmpty(list: seq<int>, score: real, n: nat)
    requires n <= |Thresholds|
    requires forall k :: 0 <= k < n && score >= Thresholds[k] ==> k in list
    ensures Fresh(list, score, n) == []
  {
    FreshMembers(list, score, n);
  }

  /** What the loop promises: the list only grows and keeps its order;
      every game whose threshold the total reaches ends up unlocked; an
      index already present is never appended again; the new indices come
      in increasing order; and nothing but game indices is added. */
  lemma UnlockedSpec(list: seq<int>, score: real)
    ensures var r := Unlocked(list, score);
      && |r| >= |list| && r[..|list|] == list
      && (forall k :: 0 <= k < |Thresholds| && score >= Thresholds[k] ==> k in r)
      && (forall k :: k in r <==> k in list || (0 <= k < |Thresholds| && score >= Thresholds[k]))
      && (forall p :: |list| <= p < |r| ==> r[p] !in list && 0 <= r[p] < |Thresholds|)
      && (forall p, q :: |list| <= p < q < |r| ==> r[p] < r[q])
  {
    var f := Fresh(list, score, |Thresholds|);
    var r := list + f;
    FreshMembers(list, score, |Thresholds|);
    FreshAscending(list, score, |Thresholds|);
    assert r[..|list|] == list;
    forall p | |list| <= p < |r|
      ensures r[p] !in list && 0 <= r[p] < |Thresholds|
    {
      assert r[p] == f[p - |list|] && f[p - |list|] in f;
    }
    forall p, q | |list| <= p < q < |r|
      ensures r[p] < r[q]
    {
      assert r[p] == f[p - |list|] && r[q] == f[q - |list|];
      assert 0 <= p - |list| < q - |list| < |f|;
      assert f[p - |list|] < f[q - |list|];
    }
  }

  /** A duplicate-free list stays duplicate-free. */
  lemma UnlockedDistinct(list: seq<int>, score: real)
    requires forall p, q :: 0 <= p < q < |list| ==> list[p] != list[q]
    ensures var r := Unlocked(list, score);
      forall p, q :: 0 <= p < q < |r| ==> r[p] != r[q]
  {
    var r := Unlocked(list, score);
    UnlockedSpec(list, score);
    forall p, q | 0 <= p < q < |r|
      ensures r[p] != r[q]
    {
      if q < |list| {
        assert r[p] == list[p] && r[q] == list[q];
      } else if p < |list| {
        assert r[p] == list[p] && r[p] in list;
      }
    }
  }

  /** Running the loop again with the same total unlocks nothing more. */
  lemma UnlockedIdempotent(list: seq<int>, score: real)
    ensures Unlocked(Unlocked(list, score), score) == Unlocked(list, score)
  {
    var r := Unlocked(list, score);
    UnlockedSpec(list, score);
    FreshEmpty(r, score, |Thresholds|);
  }

  /** A larger total unlocks at least the games a smaller one does. */
  lemma UnlockedMonotone(list: seq<int>, low: real, high: real)
    requires low <= high
    ensures forall k :: k in Unlocked(list, low) ==> k in Unlocked(list, high)
  {
    UnlockedSpec(list, low);
    UnlockedSpec(list, high);
  }

  /** The unlock loop (the `for` over the thresholds): it checks each game
      index against the list it is growing and appends the ones the total
      reaches; `newUnlocks` records whether it appended anything. */
  method UnlockGames(start: seq<int>, newScore: real) returns (games: seq<int>, newUnlocks: bool)
    ensures games == Unlocked(start, newScore)
    ensures newUnlocks <==> |games| > |start|
  {
    games := start;
    newUnlocks := false;
    var i: nat := 0;
    while i < |Thresholds|
      invariant i <= |Thresholds|
      invariant games == start + Fresh(start, newScore, i)
      invariant newUnlocks <==> |games| > |start|
    {
      FreshMembers(start, newScore, i);
      assert i in games <==> i in start;
      if !(i in games) && newScore >= Thresholds[i] {
        games := games + [i];
        newUnlocks := true;
      }
      i := i + 1;
    }
  }

  /** `exports.main` for one request: `users` is what the query for the
      caller's record returns and `failure` names the await that throws,
      if any; `writes` lists the writes that took effect, in order. */
  method UpdateScore(req: Request, users: seq<User>, failure: Failure) returns (resp: Response, writes: seq<Write>)
    ensures !ValidScore(req.score) ==> resp == Failed(InvalidScore) && writes == []
    ensures ValidScore(req.score) && failure == QueryFails ==> resp == Failed(DatabaseError) && writes == []
    ensures ValidScore(req.score) && failure != QueryFails && users == [] ==> resp == Failed(UserMissing) && writes == []
    ensures ValidScore(req.score) && failure != QueryFails && users != [] ==>
      var added := req.score.value;
      var previous := StoredScore(users[0]);
      var games := Unlocked(StartList(users[0]), previous + added);
      && (failure == UpdateFails ==> resp == Failed(DatabaseError) && writes == [])
      && (failure == HistoryFails ==> resp == Failed(DatabaseError) && writes == [SetUser(previous + added, games)])
      && (failure == NoFailure ==>
            && resp == Succeeded(previous, previous + added, added, games, |games| > |StartList(users[0])|)
            && writes == [SetUser(previous + added, games), AddHistory(req.gameIndex, added, previous + added)])
    ensures resp.Succeeded? ==>
      && resp.addedScore > 0.0 && resp.newScore == resp.previousScore + resp.addedScore
      && (forall k :: 0 <= k < |Thresholds| && resp.newScore >= Thresholds[k] ==> k in resp.unlockedGames)
      && writes[0] == SetUser(resp.newScore, resp.unlockedGames)
  {
    writes := [];
    if !ValidScore(req.score) {
      return Failed(InvalidScore), writes;
    }
    if failure == QueryFails {
      return Failed(DatabaseError), writes;
    }
    if |users| == 0 {
      return Failed(UserMissing), writes;
    }
    var userData := users[0];
    var currentScore := StoredScore(userData);
    var newScore := currentScore + req.score.value;
    var unlockedGames, newUnlocks := UnlockGames(StartList(userData), newScore);
    assert forall k :: 0 <= k < |Thresholds| && newScore >= Thresholds[k] ==> k in unlockedGames by {
      UnlockedSpec(StartList(userData), newScore);
    }
    if failure == UpdateFails {
      return Failed(DatabaseError), writes;
    }
    writes := writes + [SetUser(newScore, unlockedGames)];
    if failure == HistoryFails {
      return Failed(DatabaseError), writes;
    }
    writes := writes + [AddHistory(req.gameIndex, req.score.value, newScore)];
    resp := Succeeded(currentScore, newScore, req.score.value, unlockedGames, newUnlocks);
  }
}
