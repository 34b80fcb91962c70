/**
 * The pure helpers of pages/index.tsx: the roster order (`sortPlayers`),
 * the locks list, `positionLabel` and `initials`.
 */
module HomePage {
  import opened Optional
  import opened Text

  /** The fields of a roster entry the home page reads. */
  datatype Player = Player(
    name: string,
    position: string,
    jerseyNumber: Option<int>,
    status: Option<string>,
    lock: Option<bool>)

  // ---------------------------------------------------------------
  // Order: sortPlayers
  // ---------------------------------------------------------------

  const PositionOrder: map<string, nat> := map["GK" := 0, "DF" := 1, "MF" := 2, "FW" := 3]

  /** Rank of a position code not in `PositionOrder`. */
  const UnknownRank: nat := 99

  /** Jersey number used for a player without one. */
  const MissingJersey: int := 999

  function Rank(position: string): nat {
    if position in PositionOrder then PositionOrder[position] else UnknownRank
  }

  function JerseyKey(p: Player): int {
    p.jerseyNumber.GetOr(MissingJersey)
  }

  /** The comparator: negative when `a` goes first, positive when `b` does. */
  function SortPlayers(a: Player, b: Player): (r: int)
    ensures r < 0 <==> Precedes(a, b)
    ensures r == 0 <==> Rank(a.position) == Rank(b.position) && JerseyKey(a) == JerseyKey(b)
  {
    var posA, posB := Rank(a.position), Rank(b.position);
    if posA != posB then posA - posB else JerseyKey(a) - JerseyKey(b)
  }

  /** The order the comparator stands for: by position rank, then by jersey number. */
  predicate Precedes(a: Player, b: Player) {
    || Rank(a.position) < Rank(b.position)
    || (Rank(a.position) == Rank(b.position) && JerseyKey(a) < JerseyKey(b))
  }

  /** The comparator is antisymmetric: a positive sign means the second player precedes. */
  lemma SortPlayersMeaning(a: Player, b: Player)
    ensures SortPlayers(a, b) > 0 <==> Precedes(b, a)
    ensures SortPlayers(a, b) == -SortPlayers(b, a)
  {
  }

  /** Goalkeepers, then defenders, midfielders and forwards, then any other position. */
  lemma PositionRanks(other: string)
    requires other !in PositionOrder
    ensures Rank("GK") < Rank("DF") < Rank("MF") < Rank("FW") < Rank(other)
  {
  }

  /** Within a position, a player without a jersey number comes after every numbered player below 999. */
  lemma MissingJerseyLast(a: Player, b: Player)
    requires Rank(a.position) == Rank(b.position)
    requires a.jerseyNumber.None? && b.jerseyNumber.Some? && b.jerseyNumber.value < MissingJersey
    ensures SortPlayers(b, a) < 0
  {
  }

  lemma SortPlayersTransitive(a: Player, b: Player, c: Player)
    requires SortPlayers(a, b) <= 0 && SortPlayers(b, c) <= 0
    ensures SortPlayers(a, c) <= 0
  {
  }

  // ---------------------------------------------------------------
  // The locks list: filter, then sort
  // ---------------------------------------------------------------

  /** Each player is in order with the next one. */
  predicate Sorted(s: seq<Player>) {
    forall i :: 0 < i < |s| ==> SortPlayers(s[i - 1], s[i]) <= 0
  }

  /** Inserts `x` before the first element it does not come after. */
  function Insert(x: Player, s: seq<Player>): (r: seq<Player>)
    ensures multiset(r) == multiset(s) + multiset{x}
    ensures |r| == |s| + 1 && (r[0] == x || (|s| > 0 && r[0] == s[0]))
  {
    if s == [] || SortPlayers(x, s[0]) <= 0 then [x] + s
    else
      assert s == [s[0]] + s[1..];
      [s[0]] + Insert(x, s[1..])
  }

  /** A player in order with the head of a sorted list can go in front of it. */
  lemma SortedCons(x: Player, s: seq<Player>)
    requires Sorted(s) && (s == [] || SortPlayers(x, s[0]) <= 0)
    ensures Sorted([x] + s)
  {
    var r := [x] + s;
    forall i | 0 < i < |r|
      ensures SortPlayers(r[i - 1], r[i]) <= 0
    {
      if i > 1 {
        assert r[i - 1] == s[i - 2] && r[i] == s[i - 1];
      }
    }
  }

  /** Inserting into a sorted list keeps it sorted. */
  lemma {:induction false} InsertSorted(x: Player, s: seq<Player>)
    requires Sorted(s)
    ensures Sorted(Insert(x, s))
  {
    if s == [] || SortPlayers(x, s[0]) <= 0 {
      SortedCons(x, s);
    } else {
      var tail := s[1..];
      assert Sorted(tail) by {
        forall i | 0 < i < |tail|
          ensures SortPlayers(tail[i - 1], tail[i]) <= 0
        {
          assert tail[i - 1] == s[i] && tail[i] == s[i + 1];
        }
      }
      InsertSorted(x, tail);
      SortPlayersMeaning(x, s[0]);
      SortedCons(s[0], Insert(x, tail));
    }
  }

  /** The array sort with `sortPlayers` (a stable insertion sort). */
  function SortByPosition(s: seq<Player>): (r: seq<Player>)
    ensures Sorted(r)
    ensures multiset(r) == multiset(s)
  {
    if s == [] then []
    else
      assert s == [s[0]] + s[1..];
      InsertSorted(s[0], SortByPosition(s[1..]));
      Insert(s[0], SortByPosition(s[1..]))
  }

  /** In a sorted list every player is in order with every later one, not only the next. */
  lemma {:induction false} SortedPairwise(s: seq<Player>, i: int, j: int)
    requires Sorted(s) && 0 <= i < j < |s|
    ensures SortPlayers(s[i], s[j]) <= 0
  {
    if i < j - 1 {
      SortedPairwise(s, i, j - 1);
      SortPlayersTransitive(s[i], s[j - 1], s[j]);
    }
  }

  predicate IsLock(p: Player) {
    p.status == Some("lock") || p.lock == Some(true)
  }

  predicate HasLockStatus(p: Player) {
    p.status == Some("lock")
  }

  /** The players `keep` accepts, in roster order. */
  function Filter(players: seq<Player>, keep: Player -> bool): (r: seq<Player>)
    ensures forall p :: p in r <==> p in players && keep(p)
    ensures forall p :: multiset(r)[p] == if keep(p) then multiset(players)[p] else 0
  {
    if players == [] then []
    else
      assert players == [players[0]] + players[1..];
      (if keep(players[0]) then [players[0]] else []) + Filter(players[1..], keep)
  }

  /** The roster's locks, put in the comparator's order. */
  function Locks(players: seq<Player>): (r: seq<Player>)
    ensures Sorted(r)
    ensures forall p :: multiset(r)[p] == if IsLock(p) then multiset(players)[p] else 0
  {
    SortByPosition(Filter(players, IsLock))
  }

  /**
   * The locks are exactly the players with status "lock" or `lock` set,
   * and each is in the comparator's order with every later one.
   */
  lemma LocksSpec(players: seq<Player>)
    ensures forall p :: p in Locks(players) <==> p in players && IsLock(p)
    ensures forall i, j :: 0 <= i < j < |Locks(players)| ==> SortPlayers(Locks(players)[i], Locks(players)[j]) <= 0
  {
    var r := Locks(players);
    forall p
      ensures p in r <==> p in players && IsLock(p)
    {
      assert p in r <==> p in multiset(r);
    }
    forall i, j | 0 <= i < j < |r|
      ensures SortPlayers(r[i], r[j]) <= 0
    {
      SortedPairwise(r, i, j);
    }
  }

  lemma {:induction false} FiltersAgree(players: seq<Player>)
    requires forall p :: p in players && p.lock == Some(true) ==> p.status == Some("lock")
    ensures Filter(players, IsLock) == Filter(players, HasLockStatus)
  {
    if players != [] {
      assert forall p :: p in players[1..] ==> p in players;
      FiltersAgree(players[1..]);
    }
  }

  /**
   * As many rows as players with status "lock", provided no player has
   * `lock` set without that status.
   */
  lemma LockCount(players: seq<Player>)
    requires forall p :: p in players && p.lock == Some(true) ==> p.status == Some("lock")
    ensures |Locks(players)| == |Filter(players, HasLockStatus)|
  {
    FiltersAgree(players);
    var f := Filter(players, IsLock);
    assert |multiset(Locks(players))| == |multiset(f)|;
  }

  // ---------------------------------------------------------------
  // positionLabel
  // ---------------------------------------------------------------

  const PositionNames: map<string, string> := map[
    "GK" := "Goalkeeper",
    "DF" := "Defender",
    "MF" := "Midfielder",
    "FW" := "Forward"
  ]

  function PositionLabel(code: string): (text: string)
    ensures text != ""
    ensures text == code || text == "—" || text in PositionNames.Values
  {
    var key := Upper(code);
    if key in PositionNames then PositionNames[key]
    else if code == "" then "—"
    else code
  }

  lemma {:induction false} UpperIdempotent(s: string)
    ensures Upper(Upper(s)) == Upper(s)
  {
    if s != [] {
      UpperIdempotent(s[1..]);
    }
  }

  /**
   * The four codes are recognised in any letter case and named; any other
   * code is shown as it is, and an empty one as a dash, so a label is
   * never empty.
   */
  lemma PositionLabelSpec(code: string)
    ensures PositionLabel(code) != ""
    ensures code == "" ==> PositionLabel(code) == "—"
    ensures Upper(code) in PositionNames ==> PositionLabel(code) == PositionNames[Upper(code)]
    ensures Upper(code) !in PositionNames && code != "" ==> PositionLabel(code) == code
    ensures PositionLabel(Upper(code)) == if Upper(code) in PositionNames || code == "" then PositionLabel(code) else Upper(code)
  {
    UpperIdempotent(code);
  }

  /** The label knows exactly the codes the order ranks; but only the label ignores letter case. */
  lemma LabelAndRankCodes()
    ensures PositionNames.Keys == PositionOrder.Keys
    ensures PositionLabel("gk") == "Goalkeeper" && Rank("gk") == UnknownRank
  {
    assert Upper("gk") == "GK";
  }

  // ---------------------------------------------------------------
  // initials
  // ---------------------------------------------------------------

  /** The first character of each word, run together; an empty word contributes nothing. */
  function FirstChars(words: seq<string>): string {
    if words == [] then ""
    else (if words[0] == "" then "" else [words[0][0]]) + FirstChars(words[1..])
  }

  /**
   * The first character of each space-separated word, upper-cased, of
   * which at most the first two are kept.
   */
  function Initials(name: string): (r: string)
    ensures |r| <= 2
  {
    Prefix(Upper(FirstChars(Split(name, ' '))), 2)
  }

  /**
   * A reference for the same characters: each non-space character that
   * starts the name or follows a space, read left to right.
   */
  function WordStarts(s: string, afterSpace: bool): string {
    if s == [] then ""
    else (if afterSpace && s[0] != ' ' then [s[0]] else []) + WordStarts(s[1..], s[0] == ' ')
  }

  lemma {:induction false} FirstCharsOfSplit(s: string)
    ensures FirstChars(Split(s, ' ')) == WordStarts(s, true)
    ensures FirstChars(Split(s, ' ')[1..]) == WordStarts(s, false)
  {
    if s != [] {
      FirstCharsOfSplit(s[1..]);
      var rest := Split(s[1..], ' ');
      if s[0] == ' ' {
        assert Split(s, ' ') == [""] + rest;
        assert ([""] + rest)[1..] == rest;
      } else {
        var parts := [[s[0]] + rest[0]] + rest[1..];
        assert Split(s, ' ') == parts;
        assert parts[1..] == rest[1..];
      }
    }
  }

  /** The initials are the upper-cased first characters of the space-separated words, at most two. */
  lemma InitialsSpec(name: string)
    ensures Initials(name) == Prefix(Upper(WordStarts(name, true)), 2)
    ensures forall i :: 0 <= i < |Initials(name)| ==> !('a' <= Initials(name)[i] <= 'z')
  {
    FirstCharsOfSplit(name);
  }
}
