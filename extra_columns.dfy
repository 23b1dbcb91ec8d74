/**
 * The extra columns of the profile: every (header, cell) pair of the row
 * whose cell is non-empty, whose header is not blank, and whose lower-cased
 * header is not one of the fixed handled names. Exclusion is by membership
 * in that list only, so an alias missing from it (such as "Rank") still
 * shows up as an extra column.
 */
module ExtraColumns {
  import opened Strings
  import opened RowLookup

  /**
   * `handledKeys`: the header names the profile shows in its own fields,
   * each folded to lower case as the source's `map(k => k.toLowerCase())` does.
   */
  const HandledKeys: seq<string> := [
    ToLower("Full Name"), ToLower("Name"), ToLower("Designation"),
    ToLower("Role"), ToLower("Department"), ToLower("Dept"),
    ToLower("Institution Name"), ToLower("Institution"), ToLower("College"),
    ToLower("Employee ID"), ToLower("ID"), ToLower("Emp ID"),
    ToLower("Official Email"), ToLower("Email"), ToLower("Mail"),
    ToLower("Phone Number"), ToLower("Phone"), ToLower("Mobile"),
    ToLower("ORCID ID"), ToLower("orcid id"), ToLower("ORCID"),
    ToLower("ORC Id"), ToLower("Google Scholar Link"), ToLower("google scholar"),
    ToLower("Google Scholar"), ToLower("Scholar"), ToLower("Scopus Link"),
    ToLower("scopus"), ToLower("Scopus ID"), ToLower("Scopus"),
    ToLower("scopus "), ToLower("Profile Photo Link"), ToLower("About"),
    ToLower("about"), ToLower("Bio"), ToLower("Github"),
    ToLower("GitHub Link"), ToLower("GitHub"), ToLower("Linkedin"),
    ToLower("LinkedIn Link"), ToLower("LinkedIn")
  ]

  /** The filter of `otherColumns`. */
  predicate IsExtra(p: (string, string))
  {
    p.1 != "" && ToLower(p.0) !in HandledKeys && Trim(p.0) != ""
  }

  /**
   * `entries.filter(keep)`: the pairs `keep` accepts, in row order. Every
   * kept pair is a row pair that `keep` accepts, and every row pair that
   * `keep` accepts is kept.
   */
  function Filter(row: Row, keep: ((string, string)) -> bool): (r: Row)
    ensures |r| <= |row|
    ensures forall i :: 0 <= i < |r| ==> r[i] in row && keep(r[i])
    ensures forall i :: 0 <= i < |row| && keep(row[i]) ==> row[i] in r
  {
    if row == [] then []
    else if keep(row[0]) then [row[0]] + Filter(row[1..], keep)
    else Filter(row[1..], keep)
  }

  /** `otherColumns`: the extra pairs of the row, in row order. */
  function OtherColumns(row: Row): (r: Row)
  {
    Filter(row, IsExtra)
  }

  /** `a` can be obtained from `b` by deleting elements: the order is kept. */
  predicate IsSubsequence<T(==)>(a: seq<T>, b: seq<T>)
    decreases |b|
  {
    if a == [] then true
    else if b == [] then false
    else if a[0] == b[0] then IsSubsequence(a[1..], b[1..])
    else IsSubsequence(a, b[1..])
  }

  /** Filtering keeps the row's column order. */
  lemma {:induction false} FilterKeepsOrder(row: Row, keep: ((string, string)) -> bool)
    ensures IsSubsequence(Filter(row, keep), row)
    decreases |row|
  {
    if row != [] {
      FilterKeepsOrder(row[1..], keep);
      if !keep(row[0]) {
        SkipHead(Filter(row[1..], keep), row);
      }
    }
  }

  /**
   * The extra columns are an in-order subsequence of the row; each one has a
   * non-empty value, a header that is not blank and a lower-cased header
   * outside the handled names; and no row pair with those three properties
   * is left out.
   */
  lemma OtherColumnsSpec(row: Row)
    ensures IsSubsequence(OtherColumns(row), row)
    ensures forall i :: 0 <= i < |OtherColumns(row)| ==>
      OtherColumns(row)[i] in row && IsExtra(OtherColumns(row)[i])
    ensures forall i :: 0 <= i < |row| && IsExtra(row[i]) ==> row[i] in OtherColumns(row)
  {
    FilterKeepsOrder(row, IsExtra);
  }

  /** Dropping the first element of the longer sequence keeps a subsequence one. */
  lemma {:induction false} SkipHead<T>(a: seq<T>, b: seq<T>)
    requires b != [] && IsSubsequence(a, b[1..])
    ensures IsSubsequence(a, b)
    decreases |b|, 0
  {
    if a != [] && a[0] == b[0] {
      if |b| > 1 {
        SubsequenceTail(a, b[1..]);
      }
    }
  }

  /** A subsequence stays one when its first element is dropped. */
  lemma {:induction false} SubsequenceTail<T>(a: seq<T>, b: seq<T>)
    requires a != [] && IsSubsequence(a, b)
    ensures IsSubsequence(a[1..], b)
    decreases |b|, 1
  {
    if b != [] {
      if a[0] == b[0] {
        if a[1..] != [] {
          SkipHead(a[1..], b);
        }
      } else {
        SubsequenceTail(a, b[1..]);
        if a[1..] != [] {
          SkipHead(a[1..], b);
        }
      }
    }
  }

  /** A header that trims to "" is never an extra column, whatever its value. */
  lemma BlankHeaderIsNotExtra(key: string, value: string)
    requires WhitespaceBetween(key, 0, |key|)
    ensures !IsExtra((key, value))
  {
    TrimEmptyIff(key);
  }

  /** "Rank" fills the designation but is not a handled name. */
  lemma RankIsNotHandled()
    ensures ToLower("Rank") !in HandledKeys
  {
    // Only four handled names have four letters; each differs from "rank".
    assert ToLower("Rank")[0] == 'r' && ToLower("Rank")[1] == 'a';
    assert ToLower("Name")[0] == 'n' && ToLower("Dept")[0] == 'd' && ToLower("Mail")[0] == 'm';
    assert ToLower("Role")[1] == 'o';
  }
}
