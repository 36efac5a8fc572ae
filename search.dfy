/** `SearchResult` of `src/search.rs`: the committed query, the characters typed
    at the search prompt, the ordered list of matches and an optional cursor into
    that list. Running the regular-expression search itself (`search::search`)
    is a foreign call and is not part of this module. */
module Search {
  import opened Base

  /** A match: (1-based line number, byte column of the match in that line). */
  type Match = (u64, u64)

  /** What the matcher (`search::search(filename, word)`) yields: the matches,
      a pattern that does not compile (the `unwrap` at search.rs:75 panics), or
      an I/O error that `?` passes to the caller. */
  datatype SearchOutcome = Found(matches: seq<Match>) | InvalidPattern | IoError

  /** Matches ordered by line number, as the matcher reports them. */
  ghost predicate SortedByLine(lines: seq<Match>) {
    forall i, j :: 0 <= i < j < |lines| ==> lines[i].0 <= lines[j].0
  }

  /** The index `get_near_line(p)` selects: the first match whose line number is at least `p`. */
  function FirstAtOrAfter(lines: seq<Match>, p: u64): (r: Option<nat>)
    ensures r.Some? ==> r.value < |lines| && lines[r.value].0 >= p
    ensures r.Some? ==> forall j :: 0 <= j < r.value ==> lines[j].0 < p
    ensures r.None? ==> forall j :: 0 <= j < |lines| ==> lines[j].0 < p
  {
    if lines == [] then None
    else if lines[0].0 >= p then Some(0)
    else match FirstAtOrAfter(lines[1..], p)
      case None => None
      case Some(k) => Some(k + 1)
  }

  /** On a list sorted by line, the selected match is the nearest one at or after `p`. */
  lemma FirstAtOrAfterIsNearest(lines: seq<Match>, p: u64)
    requires SortedByLine(lines)
    ensures match FirstAtOrAfter(lines, p)
      case None => true
      case Some(k) => forall j :: 0 <= j < |lines| && lines[j].0 >= p ==> lines[k].0 <= lines[j].0
  {
  }

  /** The index `next` moves to from index `n` in a list of `count` matches. */
  function NextIndex(n: nat, count: nat): (r: nat)
    requires count > 0
    ensures r < count
    ensures n + 1 < count ==> r == n + 1
    ensures n + 1 >= count ==> r == 0
  {
    if count > n + 1 then n + 1 else 0
  }

  /** The index reached after pressing `n` `k` times. */
  function Advance(n: nat, count: nat, k: nat): nat
    requires n < count
    decreases k
  {
    if k == 0 then n else NextIndex(Advance(n, count, k - 1), count)
  }

  /** `next` steps cyclically through the whole list: after `k` steps the
      selection is `k` places further on, modulo the number of matches. */
  lemma {:induction false} AdvanceIsCyclic(n: nat, count: nat, k: nat)
    requires n < count
    ensures Advance(n, count, k) == (n + k) % count
  {
    if k == 0 {
      ModOfSmall(n, count);
    } else {
      AdvanceIsCyclic(n, count, k - 1);
      ModSucc(n + k - 1, count);
    }
  }

  lemma ModOfSmall(a: nat, b: nat)
    requires a < b
    ensures a % b == a
  {
  }

  /** Taking the successor modulo `b` is stepping with wrap-around. */
  lemma ModSucc(a: nat, b: nat)
    requires b > 0
    ensures (a + 1) % b == if a % b + 1 < b then a % b + 1 else 0
  {
    var q, m := a / b, a % b;
    assert a == q * b + m;
    if m + 1 < b {
      ModUnique(a + 1, b, q, m + 1);
    } else {
      assert a + 1 == (q + 1) * b;
      ModUnique(a + 1, b, q + 1, 0);
    }
  }

  lemma ModUnique(a: nat, b: nat, q: nat, r: nat)
    requires r < b && a == q * b + r
    ensures a % b == r
  {
    var q', r' := a / b, a % b;
    assert a == q' * b + r';
    if q' < q {
      assert (q - q') * b == q * b - q' * b;
      MulAtLeast(q - q', b);
    } else if q' > q {
      assert (q' - q) * b == q' * b - q * b;
      MulAtLeast(q' - q, b);
    } else {
      assert q * b == q' * b;
    }
  }

  lemma MulAtLeast(d: nat, b: nat)
    requires d >= 1
    ensures d * b >= b
  {
    var e: nat := d - 1;
    assert d * b == e * b + b;
  }

  class SearchResult {
    const filename: string
    var word: string
    /** Characters typed at the search prompt. */
    var wordVec: seq<char>
    var lines: seq<Match>
    var nowIdx: Option<nat>

    /** The selection is absent or points into the list. */
    ghost predicate Valid()
      reads this
    {
      nowIdx.Some? ==> nowIdx.value < |lines|
    }

    /** `SearchResult::new`. */
    constructor (filename: string)
      ensures this.filename == filename
      ensures word == "" && wordVec == [] && lines == [] && nowIdx == None
      ensures Valid()
    {
      this.filename := filename;
      word, wordVec, lines, nowIdx := "", [], [], None;
    }

    /** `exists_match`: a selection exists; on a valid state it is a real match. */
    function ExistsMatch(): (b: bool)
      reads this
      ensures b <==> nowIdx.Some?
      ensures b && Valid() ==> nowIdx.value < |lines|
    {
      nowIdx.Some?
    }

    /** `get_near_line`: scans the list in order and selects the first match at
        or after line `nowPosition`; with no such match nothing changes. */
    method GetNearLine(nowPosition: u64) returns (pos: Option<Match>)
      modifies this
      ensures word == old(word) && wordVec == old(wordVec) && lines == old(lines)
      ensures match FirstAtOrAfter(lines, nowPosition)
        case Some(k) => pos == Some(lines[k]) && nowIdx == Some(k)
        case None => pos == None && nowIdx == old(nowIdx)
      ensures old(Valid()) ==> Valid()
    {
      pos := None;
      var count := |lines|;
      var idx := 0;
      while idx < count
        invariant 0 <= idx <= count
        invariant forall j :: 0 <= j < idx ==> lines[j].0 < nowPosition
        invariant pos == None && nowIdx == old(nowIdx)
      {
        var (lineNum, _) := lines[idx];
        if lineNum >= nowPosition {
          pos := Some(lines[idx]);
          nowIdx := Some(idx);
          break;
        }
        idx := idx + 1;
      }
    }

    /** `next`: advances the selection, wrapping from the last match to the
        first; with no selection, or no matches, nothing changes. */
    method Next() returns (r: Option<Match>)
      modifies this
      ensures word == old(word) && wordVec == old(wordVec) && lines == old(lines)
      ensures old(nowIdx).None? || lines == [] ==> r == None && nowIdx == old(nowIdx)
      ensures old(nowIdx).Some? && lines != [] ==>
        var k := NextIndex(old(nowIdx).value, |lines|);
        nowIdx == Some(k) && r == Some(lines[k])
      ensures old(Valid()) ==> Valid()
    {
      var resultCount := |lines|;
      match nowIdx {
        case Some(n) =>
          if resultCount > 0 {
            var updateN := if resultCount > n + 1 then n + 1 else 0;
            nowIdx := Some(updateN);
            r := Some(lines[updateN]);
          } else {
            r := None;
          }
        case None =>
          r := None;
      }
    }

    /** `reset`: forgets the query, the typed characters, the matches and the selection. */
    method Reset()
      modifies this
      ensures word == "" && wordVec == [] && lines == [] && nowIdx == None
      ensures Valid()
    {
      word := "";
      wordVec := [];
      lines := [];
      nowIdx := None;
    }
  }

  /** Pressing `n` as often as there are matches comes back to the same match. */
  lemma AdvanceReturnsAfterFullCycle(n: nat, count: nat)
    requires n < count
    ensures Advance(n, count, count) == n
  {
    AdvanceIsCyclic(n, count, count);
    ModUnique(n + count, count, 1, n);
  }

  /** The no-wrap behaviour of the forward search: with matches on lines 3 and 7
      and the cursor on line 10, nothing is selected. */
  lemma NearLineDoesNotWrap()
    ensures FirstAtOrAfter([(3, 0), (7, 2)], 10) == None
  {
  }
}
