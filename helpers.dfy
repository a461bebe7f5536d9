/** The pure helpers of the scoring section: `chunk_list`, the duplicate-pick
    check `find_duplicate_pick_numbers`, and the catalog check and form reading
    that the entry handlers run before they write anything. */
module Helpers {
  import opened Wrappers
  import opened Catalog
  import opened PyText

  // ---------------------------------------------------------------- chunk_list

  function Concat<T>(chunks: seq<seq<T>>): seq<T> {
    if chunks == [] then [] else chunks[0] + Concat(chunks[1..])
  }

  /** `chunk_list(lst, chunk_size)`: consecutive slices of width `chunkSize`,
      the last one possibly shorter. Python's `range` refuses a zero step, and a
      negative step yields nothing. */
  function ChunkList<T>(lst: seq<T>, chunkSize: int): (chunks: seq<seq<T>>)
    requires chunkSize != 0
    ensures chunkSize < 0 ==> chunks == []
    ensures chunkSize > 0 ==> Concat(chunks) == lst
    ensures chunkSize > 0 ==> forall i :: 0 <= i < |chunks| ==> 0 < |chunks[i]| <= chunkSize
    ensures chunkSize > 0 ==> forall i :: 0 <= i < |chunks| - 1 ==> |chunks[i]| == chunkSize
    decreases |lst|
  {
    if chunkSize < 0 || lst == [] then []
    else
      var n := if |lst| < chunkSize then |lst| else chunkSize;
      var chunks := [lst[..n]] + ChunkList(lst[n..], chunkSize);
      assert chunks[1..] == ChunkList(lst[n..], chunkSize);
      chunks
  }

  // ------------------------------------------------------------- the pick map

  /** The player name a pick map holds for pick `k`, "" when there is none. */
  function Slot(pickMap: map<int, string>, k: int): string {
    if k in pickMap then pickMap[k] else ""
  }

  /** The pick map the entry handlers read from their form: every pick number
      1..MaxPickNumber, each value stripped, a missing field read as "". */
  function PickMap(form: map<int, string>): (pickMap: map<int, string>)
    ensures forall k :: k in pickMap <==> 1 <= k <= MaxPickNumber
    ensures forall k :: 1 <= k <= MaxPickNumber && k !in form ==> pickMap[k] == ""
  {
    map k | 1 <= k <= MaxPickNumber :: Strip(Slot(form, k))
  }

  /** The map from each of `lo`..`hi - 1` to its value under `f`. */
  function Tabulate(lo: int, hi: int, f: int -> string): map<int, string> {
    map j | lo <= j < hi :: f(j)
  }

  /** Extending the range by one adds that one entry. */
  lemma TabulateStep(lo: int, hi: int, f: int -> string)
    requires lo <= hi
    ensures Tabulate(lo, hi, f)[hi := f(hi)] == Tabulate(lo, hi + 1, f)
  {
  }

  /** The pick map is the stripped field of each pick number, tabulated. */
  lemma PickMapTabulated(form: map<int, string>)
    ensures PickMap(form) == Tabulate(1, MaxPickNumber + 1, j => Strip(Slot(form, j)))
  {
  }

  // -------------------------------------------------- find_duplicate_pick_numbers

  /** The pick numbers whose non-empty player name also appears under another
      pick number. */
  function DuplicatePickNumbers(pickMap: map<int, string>): (dups: set<int>)
    ensures dups <= pickMap.Keys
    ensures forall k :: k in dups ==> pickMap[k] != ""
  {
    set k | k in pickMap && pickMap[k] != ""
              && exists k' :: k' in pickMap && k' != k && pickMap[k'] == pickMap[k]
  }

  /** No non-empty player name is entered under two pick numbers. */
  predicate NamesDistinct(pickMap: map<int, string>) {
    forall k, k' :: k in pickMap && k' in pickMap && k != k' && pickMap[k] != ""
                    ==> pickMap[k] != pickMap[k']
  }

  /** No pick number is flagged exactly when no non-empty name is entered twice. */
  lemma NoDuplicatesIffDistinct(pickMap: map<int, string>)
    ensures DuplicatePickNumbers(pickMap) == {} <==> NamesDistinct(pickMap)
  {
    if !NamesDistinct(pickMap) {
      var k, k' :| k in pickMap && k' in pickMap && k != k' && pickMap[k] != "" && pickMap[k] == pickMap[k'];
      assert k in DuplicatePickNumbers(pickMap);
    }
  }

  predicate NoRepeats(s: seq<int>) {
    forall i, j :: 0 <= i < j < |s| ==> s[i] != s[j]
  }

  /** `used` groups the pick numbers of `seen` by their non-empty player name,
      each pick number once. */
  ghost predicate GroupsOf(used: map<string, seq<int>>, pickMap: map<int, string>, seen: set<int>) {
    && (forall player :: player in used ==> player != "" && NoRepeats(used[player]))
    && (forall player, k :: player in used && k in used[player] ==>
          k in seen && k in pickMap && pickMap[k] == player)
    && (forall k :: k in seen && k in pickMap && pickMap[k] != "" ==>
          pickMap[k] in used && k in used[pickMap[k]])
  }

  /** A group has more than one member exactly when its name is entered twice. */
  lemma GroupSizeMeansReuse(used: map<string, seq<int>>, pickMap: map<int, string>, k: int)
    requires GroupsOf(used, pickMap, pickMap.Keys)
    requires k in pickMap && pickMap[k] != ""
    ensures pickMap[k] in used
    ensures |used[pickMap[k]]| > 1 <==> exists k' :: k' in pickMap && k' != k && pickMap[k'] == pickMap[k]
  {
    var group := used[pickMap[k]];
    if |group| > 1 {
      assert group[0] != group[1];
      var other := if group[0] != k then group[0] else group[1];
      assert other in group;
      assert other in pickMap && other != k && pickMap[other] == pickMap[k];
    } else {
      forall k' | k' in pickMap && k' != k ensures pickMap[k'] != pickMap[k] {
      }
    }
  }

  /** A non-empty set has a member to pick, as the loops over dictionary
      items below do. */
  lemma NonEmptyHasMember<T>(s: set<T>) returns (x: T)
    requires s != {}
    ensures x in s
  {
    if forall y :: y !in s {
      assert false;
    }
    x :| x in s;
  }

  /** The first loop of `find_duplicate_pick_numbers`: the dictionary `used`
      from each non-empty player name to the pick numbers it is entered under. */
  method GroupByPlayer(pickMap: map<int, string>) returns (used: map<string, seq<int>>)
    ensures GroupsOf(used, pickMap, pickMap.Keys)
  {
    used := map[];
    var rest := pickMap.Keys;
    ghost var seen: set<int> := {};
    while rest != {}
      invariant rest + seen == pickMap.Keys && rest !! seen
      invariant GroupsOf(used, pickMap, seen)
      decreases rest
    {
      ghost var _ := NonEmptyHasMember(rest);
      var pnum: int :| pnum in rest;
      var player := pickMap[pnum];
      if player != "" {
        if player !in used {
          used := used[player := [pnum]];
        } else {
          used := used[player := used[player] + [pnum]];
        }
      }
      rest := rest - {pnum};
      seen := seen + {pnum};
    }
  }

  /** `find_duplicate_pick_numbers`: group the pick numbers by non-empty player
      name, then collect every group with more than one member. */
  method FindDuplicatePickNumbers(pickMap: map<int, string>) returns (duplicates: set<int>)
    ensures duplicates == DuplicatePickNumbers(pickMap)
    ensures duplicates == {} <==> NamesDistinct(pickMap)
  {
    var used := GroupByPlayer(pickMap);
    duplicates := {};
    var names := used.Keys;
    ghost var grouped: set<string> := {};
    while names != {}
      invariant names + grouped == used.Keys && names !! grouped
      invariant forall k :: k in duplicates <==>
                  k in pickMap && pickMap[k] in grouped && |used[pickMap[k]]| > 1
      decreases names
    {
      ghost var _ := NonEmptyHasMember(names);
      var player: string :| player in names;
      if |used[player]| > 1 {
        duplicates := duplicates + set k | k in used[player];
      }
      names := names - {player};
      grouped := grouped + {player};
    }

    forall k | k in pickMap && pickMap[k] != ""
      ensures pickMap[k] in used
      ensures |used[pickMap[k]]| > 1 <==> exists k' :: k' in pickMap && k' != k && pickMap[k'] == pickMap[k]
    {
      GroupSizeMeansReuse(used, pickMap, k);
    }
    assert "" !in used;
    forall k ensures k in duplicates <==> k in DuplicatePickNumbers(pickMap) {
      if k in pickMap && pickMap[k] != "" {
        assert k in duplicates <==> |used[pickMap[k]]| > 1;
      }
    }
  }

  // ---------------------------------------------------------- catalog check

  /** Every non-empty slot 1..MaxPickNumber names a player of the catalog. */
  predicate AllInCatalog(pickMap: map<int, string>, catalog: seq<string>) {
    forall k :: 1 <= k <= MaxPickNumber && Slot(pickMap, k) != "" ==> Slot(pickMap, k) in catalog
  }

  /** The first pick from `k` on, in pick order, whose non-empty name is not
      in the catalog. */
  function FirstUnlisted(pickMap: map<int, string>, catalog: seq<string>, k: int): (r: Option<int>)
    ensures r.None? <==> forall j :: k <= j <= MaxPickNumber && Slot(pickMap, j) != "" ==> Slot(pickMap, j) in catalog
    ensures r.Some? ==> && k <= r.value <= MaxPickNumber
                        && Slot(pickMap, r.value) != "" && Slot(pickMap, r.value) !in catalog
                        && forall j :: k <= j < r.value && Slot(pickMap, j) != "" ==> Slot(pickMap, j) in catalog
    decreases MaxPickNumber + 1 - k
  {
    if k > MaxPickNumber then None
    else if Slot(pickMap, k) != "" && Slot(pickMap, k) !in catalog then Some(k)
    else FirstUnlisted(pickMap, catalog, k + 1)
  }

  /** The entry handlers' catalog loop, which walks the pick map in pick order
      and stops at the first non-empty name that is not in the catalog. */
  method FindNameNotInCatalog(pickMap: map<int, string>, catalog: seq<string>) returns (bad: Option<int>)
    ensures bad == FirstUnlisted(pickMap, catalog, 1)
    ensures bad.None? <==> AllInCatalog(pickMap, catalog)
  {
    for k := 1 to MaxPickNumber + 1
      invariant FirstUnlisted(pickMap, catalog, k) == FirstUnlisted(pickMap, catalog, 1)
    {
      var player := Slot(pickMap, k);
      if player != "" && player !in catalog {
        return Some(k);
      }
    }
    return None;
  }

  /** The entry handlers' form reading: every pick field 1..MaxPickNumber,
      stripped, a missing one read as "". */
  method ReadPickMap(form: map<int, string>) returns (pickMap: map<int, string>)
    ensures pickMap == PickMap(form)
  {
    ghost var fieldOf := j => Strip(Slot(form, j));
    pickMap := map[];
    for k := 1 to MaxPickNumber + 1
      invariant pickMap == Tabulate(1, k, fieldOf)
    {
      var field := Strip(Slot(form, k));
      TabulateStep(1, k, fieldOf);
      pickMap := pickMap[k := field];
    }
    PickMapTabulated(form);
  }
}
