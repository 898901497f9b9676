/**
 * The PHP string built-ins the report-instance form relies on, as functions:
 * `strpos` (first occurrence), `explode`/`implode` on a one-character
 * separator, and `str_replace` of one search string.
 */
module PhpStrings {
  import opened PhpValues

  /** `needle` occurs in `hay` starting at index `i`. */
  predicate OccursAt(hay: string, needle: string, i: nat) {
    i + |needle| <= |hay| && hay[i..i + |needle|] == needle
  }

  /** The first occurrence of `needle` at or after `from`, if any. */
  function StrposFrom(hay: string, needle: string, from: nat): (r: Option<nat>)
    ensures r.Some? ==> from <= r.value && OccursAt(hay, needle, r.value)
    ensures r.Some? ==> forall j: nat :: from <= j < r.value ==> !OccursAt(hay, needle, j)
    ensures r.None? ==> forall j: nat :: from <= j ==> !OccursAt(hay, needle, j)
    decreases |hay| - from
  {
    if from + |needle| > |hay| then None
    else if hay[from..from + |needle|] == needle then Some(from)
    else StrposFrom(hay, needle, from + 1)
  }

  /** `strpos($hay, $needle)`: the index of the first occurrence, or FALSE (None). */
  function Strpos(hay: string, needle: string): (r: Option<nat>)
    ensures r.Some? ==> OccursAt(hay, needle, r.value)
    ensures r.Some? ==> forall j: nat :: j < r.value ==> !OccursAt(hay, needle, j)
    ensures r.None? <==> forall j: nat :: !OccursAt(hay, needle, j)
  {
    StrposFrom(hay, needle, 0)
  }

  /** `if (strpos($hay, $needle))`: the position is used as a truth value, so
      an occurrence at position 0 reads as false. */
  predicate StrposTruthy(hay: string, needle: string) {
    var p := Strpos(hay, needle);
    p.Some? && p.value != 0
  }

  /** The truthiness test holds exactly when the needle occurs somewhere after
      the start and does not occur at the start. */
  lemma StrposTruthyIff(hay: string, needle: string)
    ensures StrposTruthy(hay, needle) <==>
            !OccursAt(hay, needle, 0) && exists j: nat :: 0 < j && OccursAt(hay, needle, j)
  {
    var p := Strpos(hay, needle);
    if p.Some? && p.value != 0 {
      assert OccursAt(hay, needle, p.value);
    }
  }

  /** A haystack that starts with the needle never passes the test, whatever follows. */
  lemma StrposFalseAtStart(needle: string, rest: string)
    ensures !StrposTruthy(needle + rest, needle)
  {
    assert (needle + rest)[0..|needle|] == needle;
    assert OccursAt(needle + rest, needle, 0);
  }

  /** `explode($sep, $s)` for a one-character separator: never empty, and
      `explode` of "" is [""]. */
  function Split(s: string, sep: char): (parts: seq<string>)
    ensures |parts| >= 1
    decreases |s|
  {
    if |s| == 0 then [""]
    else if s[0] == sep then [""] + Split(s[1..], sep)
    else
      var rest := Split(s[1..], sep);
      [[s[0]] + rest[0]] + rest[1..]
  }

  /** `implode($sep, $parts)` of a non-empty list. */
  function Join(parts: seq<string>, sep: char): string
    requires |parts| >= 1
    decreases |parts|
  {
    if |parts| == 1 then parts[0] else parts[0] + [sep] + Join(parts[1..], sep)
  }

  /** Joining the pieces of a split gives back the original string. */
  lemma {:induction false} JoinSplit(s: string, sep: char)
    ensures Join(Split(s, sep), sep) == s
    decreases |s|
  {
    if |s| == 0 {
    } else if s[0] == sep {
      JoinSplit(s[1..], sep);
      var parts := [""] + Split(s[1..], sep);
      assert parts[1..] == Split(s[1..], sep);
      assert s == [s[0]] + s[1..];
    } else {
      JoinSplit(s[1..], sep);
      JoinCons(s[0], Split(s[1..], sep), sep);
      assert s == [s[0]] + s[1..];
    }
  }

  /** Gluing a character onto the first piece glues it onto the join. */
  lemma JoinCons(c: char, parts: seq<string>, sep: char)
    requires |parts| >= 1
    ensures Join([[c] + parts[0]] + parts[1..], sep) == [c] + Join(parts, sep)
  {
    var glued := [[c] + parts[0]] + parts[1..];
    assert glued[1..] == parts[1..];
    if |parts| > 1 {
      ConsAssoc(c, parts[0], [sep], Join(parts[1..], sep));
    }
  }

  /** No piece of a split contains the separator. */
  lemma {:induction false} SplitPiecesFree(s: string, sep: char)
    ensures forall k :: 0 <= k < |Split(s, sep)| ==> sep !in Split(s, sep)[k]
    decreases |s|
  {
    if |s| > 0 {
      SplitPiecesFree(s[1..], sep);
    }
  }

  /** A string without the separator splits into itself alone. */
  lemma {:induction false} SplitFree(p: string, sep: char)
    requires sep !in p
    ensures Split(p, sep) == [p]
    decreases |p|
  {
    if |p| > 0 {
      SplitFree(p[1..], sep);
      assert [p[0]] + p[1..] == p;
    }
  }

  /** Splitting at the first separator: the piece before it comes first. */
  lemma {:induction false} SplitCons(p: string, sep: char, t: string)
    requires sep !in p
    ensures Split(p + [sep] + t, sep) == [p] + Split(t, sep)
    decreases |p|
  {
    if |p| == 0 {
      assert p + [sep] + t == [sep] + t;
      assert (p + [sep] + t)[1..] == t;
    } else {
      var s := p + [sep] + t;
      assert s[0] == p[0];
      assert s[1..] == p[1..] + [sep] + t;
      SplitCons(p[1..], sep, t);
      assert [p[0]] + p[1..] == p;
    }
  }

  /** Splitting what was joined gives back the pieces, when no piece contains
      the separator. */
  lemma {:induction false} SplitJoin(parts: seq<string>, sep: char)
    requires |parts| >= 1
    requires forall k :: 0 <= k < |parts| ==> sep !in parts[k]
    ensures Split(Join(parts, sep), sep) == parts
    decreases |parts|
  {
    if |parts| == 1 {
      SplitFree(parts[0], sep);
    } else {
      SplitJoin(parts[1..], sep);
      SplitCons(parts[0], sep, Join(parts[1..], sep));
      assert [parts[0]] + parts[1..] == parts;
    }
  }

  /** `str_replace($from, $to, $s)`: every occurrence of `from`, scanned from
      the left without overlap, is replaced by `to`; an empty `from` leaves
      the subject unchanged. */
  function ReplaceAll(s: string, from: string, to: string): string
    decreases |s|
  {
    if from == [] || |s| < |from| then s
    else if s[..|from|] == from then to + ReplaceAll(s[|from|..], from, to)
    else [s[0]] + ReplaceAll(s[1..], from, to)
  }

  /** A subject in which the search string does not occur is returned unchanged. */
  lemma {:induction false} ReplaceAbsent(s: string, from: string, to: string)
    requires forall i: nat :: !OccursAt(s, from, i)
    ensures ReplaceAll(s, from, to) == s
    decreases |s|
  {
    if from == [] || |s| < |from| {
    } else {
      assert !OccursAt(s, from, 0);
      forall i: nat ensures !OccursAt(s[1..], from, i) {
        if OccursAt(s[1..], from, i) {
          assert s[1..][i..i + |from|] == s[i + 1..i + 1 + |from|];
          assert OccursAt(s, from, i + 1);
        }
      }
      ReplaceAbsent(s[1..], from, to);
      assert [s[0]] + s[1..] == s;
    }
  }

  /** The suffix from `i` starts with a match: it is replaced. */
  lemma ReplaceAtHit(s: string, from: string, to: string, i: nat)
    requires from != [] && OccursAt(s, from, i)
    ensures ReplaceAll(s[i..], from, to) == to + ReplaceAll(s[i + |from|..], from, to)
  {
    assert s[i..][..|from|] == s[i..i + |from|];
    assert s[i..][|from|..] == s[i + |from|..];
  }

  /** The suffix from `i` starts with no match: its first character is kept. */
  lemma ReplaceAtSkip(s: string, from: string, to: string, i: nat)
    requires from != [] && i + |from| <= |s| && !OccursAt(s, from, i)
    ensures ReplaceAll(s[i..], from, to) == [s[i]] + ReplaceAll(s[i + 1..], from, to)
  {
    assert s[i..][..|from|] == s[i..i + |from|];
    assert s[i..][1..] == s[i + 1..];
  }

  lemma ConsAssoc(c: char, a: string, b: string, d: string)
    ensures [c] + (a + b + d) == ([c] + a) + b + d
  {
  }

  /** Up to the first occurrence at or after `i`, the suffix from `i` is
      kept; the occurrence becomes `to`, and the rest is replaced in turn. */
  lemma {:induction false} ReplaceAtFirst(s: string, from: string, to: string, i: nat, j: nat)
    requires i <= j && from != [] && OccursAt(s, from, j)
    requires forall k: nat :: i <= k < j ==> !OccursAt(s, from, k)
    ensures ReplaceAll(s[i..], from, to) == s[i..j] + to + ReplaceAll(s[j + |from|..], from, to)
    decreases j - i
  {
    if i == j {
      ReplaceAtHit(s, from, to, i);
      assert s[i..j] == [];
    } else {
      ReplaceAtSkip(s, from, to, i);
      ReplaceAtFirst(s, from, to, i + 1, j);
      ConsAssoc(s[i], s[i + 1..j], to, ReplaceAll(s[j + |from|..], from, to));
      assert [s[i]] + s[i + 1..j] == s[i..j];
    }
  }

  /** At the first occurrence of the search string, `str_replace` keeps the
      text before it, writes the replacement, and goes on with the text after
      the match. With ReplaceAbsent this determines the result on every subject. */
  lemma ReplaceFirst(s: string, from: string, to: string, j: nat)
    requires from != [] && OccursAt(s, from, j)
    requires forall i: nat :: i < j ==> !OccursAt(s, from, i)
    ensures ReplaceAll(s, from, to) == s[..j] + to + ReplaceAll(s[j + |from|..], from, to)
  {
    ReplaceAtFirst(s, from, to, 0, j);
    assert s[0..] == s;
    assert s[0..j] == s[..j];
  }

  /** The pieces of `explode` are the only separator-free list that `implode`
      turns into the same string. */
  lemma SplitUnique(a: seq<string>, b: seq<string>, sep: char)
    requires |a| >= 1 && |b| >= 1
    requires forall k :: 0 <= k < |a| ==> sep !in a[k]
    requires forall k :: 0 <= k < |b| ==> sep !in b[k]
    requires Join(a, sep) == Join(b, sep)
    ensures a == b
  {
    SplitJoin(a, sep);
    SplitJoin(b, sep);
  }
}
