/**
 * One spreadsheet row and the alias lookup `getEntry` of the profile
 * component: for each candidate header in list order, first the exact
 * header, then the first header (in column order) equal to it once both are
 * folded to lower case.
 */
module RowLookup {
  import opened Wrappers
  import opened Strings

  /** A row: its (header, cell) pairs in the order `Object.keys` lists them. */
  type Row = seq<(string, string)>

  /** A JavaScript object never has two properties with the same name. */
  predicate DistinctKeys(row: Row)
  {
    forall i, j :: 0 <= i < j < |row| ==> row[i].0 != row[j].0
  }

  /** What `getEntry` returns: the header it used and that header's value. */
  datatype Entry = Entry(key: string, value: string)

  /**
   * `data[key]`: the value stored under exactly `key`. A missing header reads
   * as "" (`undefined` and "" are both falsy, and every use tests truthiness).
   */
  function Get(row: Row, key: string): (v: string)
    ensures v != "" ==> (key, v) in row
    ensures (forall i :: 0 <= i < |row| ==> row[i].0 != key) ==> v == ""
  {
    if row == [] then ""
    else if row[0].0 == key then row[0].1
    else Get(row[1..], key)
  }

  /** In a row with distinct headers, `Get` reads the one pair stored under `key`. */
  lemma {:induction false} GetFindsPair(row: Row, i: nat)
    requires DistinctKeys(row) && i < |row|
    ensures Get(row, row[i].0) == row[i].1
  {
    if i > 0 {
      assert row[0].0 != row[i].0;
      GetFindsPair(row[1..], i - 1);
    }
  }

  /**
   * The position of the first header that folds to the same lower-case
   * string as `key`, or `|row|` when there is none.
   */
  function FoldIndex(row: Row, key: string): (n: nat)
    ensures n <= |row|
    ensures forall j :: 0 <= j < n ==> !SameFold(row[j].0, key)
    ensures n < |row| ==> SameFold(row[n].0, key)
  {
    if row == [] then 0
    else if SameFold(row[0].0, key) then 0
    else 1 + FoldIndex(row[1..], key)
  }

  /** `Object.keys(data).find(k => k.toLowerCase() === key.toLowerCase())`. */
  function FindFold(row: Row, key: string): (r: Option<string>)
    ensures r.None? <==> forall j :: 0 <= j < |row| ==> !SameFold(row[j].0, key)
    ensures r.Some? ==> r.value == row[FoldIndex(row, key)].0
  {
    var n := FoldIndex(row, key);
    if n < |row| then Some(row[n].0) else None
  }

  /**
   * What one candidate header yields on its own: the exact header when its
   * value is non-empty, else the first case-insensitive match when that
   * match is a non-empty header with a non-empty value, else nothing. A
   * later case-insensitive match is never consulted.
   */
  function CandidateHit(row: Row, key: string): (r: Option<Entry>)
    ensures r.Some? ==> r.value.value != "" && (r.value.key, r.value.value) in row
    ensures r.Some? ==> SameFold(r.value.key, key) && r.value.value == Get(row, r.value.key)
    ensures Get(row, key) != "" ==> r == Some(Entry(key, Get(row, key)))
    ensures Get(row, key) == "" && r.Some? ==> r.value.key == row[FoldIndex(row, key)].0
    ensures (Get(row, key) == "" && FoldIndex(row, key) < |row| && row[FoldIndex(row, key)].0 != ""
             && Get(row, row[FoldIndex(row, key)].0) != "") ==>
              r == Some(Entry(row[FoldIndex(row, key)].0, Get(row, row[FoldIndex(row, key)].0)))
    ensures r.None? ==> Get(row, key) == ""
  {
    var exact := Get(row, key);
    if exact != "" then Some(Entry(key, exact))
    else
      match FindFold(row, key)
      case Some(k) =>
        if k != "" && Get(row, k) != "" then Some(Entry(k, Get(row, k))) else None
      case None => None
  }

  /** The first candidate, in list order, that yields an entry. */
  function FirstHit(row: Row, keys: seq<string>): (r: Option<Entry>)
    ensures r.Some? ==> r.value.value != "" && (r.value.key, r.value.value) in row
    ensures r.Some? ==> exists i :: 0 <= i < |keys| && CandidateHit(row, keys[i]) == r
  {
    if keys == [] then None
    else match CandidateHit(row, keys[0])
      case Some(e) => Some(e)
      case None => FirstHit(row, keys[1..])
  }

  /** The value `getEntry(keys)` returns; a miss is `{ key: keys[0], value: '' }`. */
  function ResolveEntry(row: Row, keys: seq<string>): (e: Entry)
    requires |keys| > 0
    ensures e.value == "" ==> e == Entry(keys[0], "")
    ensures e.value != "" ==> (e.key, e.value) in row
  {
    match FirstHit(row, keys)
    case Some(e) => e
    case None => Entry(keys[0], "")
  }

  /** `getEntry`: the loop over the candidates with its early returns. */
  method GetEntry(row: Row, keys: seq<string>) returns (e: Entry)
    requires |keys| > 0
    ensures e == ResolveEntry(row, keys)
  {
    var i := 0;
    while i < |keys|
      invariant 0 <= i <= |keys|
      invariant FirstHit(row, keys) == FirstHit(row, keys[i..])
    {
      var key := keys[i];
      assert keys[i..][1..] == keys[i + 1..];
      var exact := Get(row, key);
      if exact != "" {
        return Entry(key, exact);
      }
      var found := FindFold(row, key);
      if found.Some? && found.value != "" && Get(row, found.value) != "" {
        return Entry(found.value, Get(row, found.value));
      }
      i := i + 1;
    }
    return Entry(keys[0], "");
  }

  // ----- properties of the lookup -----

  /**
   * Candidates are tried in list order: the first candidate that yields an
   * entry decides the result, whatever later candidates hold.
   */
  lemma {:induction false} FirstYieldingCandidateWins(row: Row, keys: seq<string>, j: nat)
    requires j < |keys|
    requires forall i :: 0 <= i < j ==> CandidateHit(row, keys[i]).None?
    requires CandidateHit(row, keys[j]).Some?
    ensures ResolveEntry(row, keys) == CandidateHit(row, keys[j]).value
  {
    FirstHitAt(row, keys, j);
  }

  lemma {:induction false} FirstHitAt(row: Row, keys: seq<string>, j: nat)
    requires j < |keys|
    requires forall i :: 0 <= i < j ==> CandidateHit(row, keys[i]).None?
    requires CandidateHit(row, keys[j]).Some?
    ensures FirstHit(row, keys) == CandidateHit(row, keys[j])
    decreases j
  {
    if j > 0 {
      assert CandidateHit(row, keys[0]).None?;
      FirstHitAt(row, keys[1..], j - 1);
    }
  }

  /**
   * An earlier candidate's case-insensitive hit beats a later candidate's
   * exact hit: the exact header `keys[j]` is never reached.
   */
  lemma EarlierFoldHitBeatsLaterExact(row: Row, keys: seq<string>, i: nat, j: nat)
    requires i < j < |keys|
    requires forall m :: 0 <= m < i ==> CandidateHit(row, keys[m]).None?
    requires Get(row, keys[i]) == "" && FindFold(row, keys[i]).Some?
    requires FindFold(row, keys[i]).value != "" && Get(row, FindFold(row, keys[i]).value) != ""
    requires Get(row, keys[j]) != ""
    ensures ResolveEntry(row, keys) ==
      Entry(FindFold(row, keys[i]).value, Get(row, FindFold(row, keys[i]).value))
  {
    FirstYieldingCandidateWins(row, keys, i);
  }

  /**
   * The case-insensitive scan stops at the first matching header: when that
   * header's value is empty the candidate yields nothing, even if a later
   * header of the same spelling holds a value.
   */
  lemma FoldScanStopsAtFirstMatch(row: Row, key: string, later: nat)
    requires Get(row, key) == "" && FoldIndex(row, key) < later < |row|
    requires SameFold(row[later].0, key) && row[later].1 != ""
    requires Get(row, row[FoldIndex(row, key)].0) == ""
    ensures CandidateHit(row, key).None?
  {
  }

  /**
   * A miss happens exactly when no candidate yields an entry; a miss reports
   * the first candidate with an empty value.
   */
  lemma {:induction false} MissIff(row: Row, keys: seq<string>)
    requires |keys| > 0
    ensures ResolveEntry(row, keys).value == "" <==>
      forall i :: 0 <= i < |keys| ==> CandidateHit(row, keys[i]).None?
    ensures ResolveEntry(row, keys).value == "" ==> ResolveEntry(row, keys) == Entry(keys[0], "")
  {
    FirstHitNone(row, keys);
  }

  lemma {:induction false} FirstHitNone(row: Row, keys: seq<string>)
    ensures FirstHit(row, keys).None? <==>
      forall i :: 0 <= i < |keys| ==> CandidateHit(row, keys[i]).None?
    ensures FirstHit(row, keys).Some? ==> FirstHit(row, keys).value.value != ""
    decreases |keys|
  {
    if keys != [] {
      FirstHitNone(row, keys[1..]);
      if CandidateHit(row, keys[0]).None? {
        forall i | 0 <= i < |keys| - 1 ensures keys[1..][i] == keys[i + 1] { }
      }
    }
  }

  /**
   * A hit is sound: its value is non-empty, it is an actual (header, cell)
   * pair of the row, and its header folds to one of the candidates.
   */
  lemma {:induction false} HitIsRowPair(row: Row, keys: seq<string>)
    requires |keys| > 0
    requires ResolveEntry(row, keys).value != ""
    ensures (ResolveEntry(row, keys).key, ResolveEntry(row, keys).value) in row
    ensures exists i :: 0 <= i < |keys| && SameFold(ResolveEntry(row, keys).key, keys[i])
  {
    var i := FirstHitIndex(row, keys);
    FirstYieldingCandidateWins(row, keys, i);
  }

  /** The index of the candidate that yields the first hit, when there is a hit. */
  lemma {:induction false} FirstHitIndex(row: Row, keys: seq<string>) returns (j: nat)
    requires FirstHit(row, keys).Some?
    ensures j < |keys| && CandidateHit(row, keys[j]).Some?
    ensures forall i :: 0 <= i < j ==> CandidateHit(row, keys[i]).None?
    decreases |keys|
  {
    if CandidateHit(row, keys[0]).Some? {
      j := 0;
    } else {
      var k := FirstHitIndex(row, keys[1..]);
      j := k + 1;
    }
  }

  /**
   * An exact, non-empty column under any candidate rules out a miss, and an
   * exact column of the first candidate is taken as it is.
   */
  lemma ExactColumnPreventsMiss(row: Row, keys: seq<string>, j: nat)
    requires j < |keys| && Get(row, keys[j]) != ""
    ensures ResolveEntry(row, keys).value != ""
    ensures j == 0 ==> ResolveEntry(row, keys) == Entry(keys[0], Get(row, keys[0]))
  {
    MissIff(row, keys);
    if j == 0 {
      FirstYieldingCandidateWins(row, keys, 0);
    }
  }

  /**
   * When no header of the row folds to any candidate, the lookup misses:
   * `{ key: keys[0], value: '' }`.
   */
  lemma NoFoldMatchMisses(row: Row, keys: seq<string>)
    requires |keys| > 0
    requires forall i, k :: 0 <= i < |keys| && 0 <= k < |row| ==> !SameFold(row[k].0, keys[i])
    ensures ResolveEntry(row, keys) == Entry(keys[0], "")
  {
    MissIff(row, keys);
  }
}
