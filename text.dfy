/** The JavaScript string operations the core relies on, over ASCII:
    `toLowerCase`, `includes`, `split(' ')`, `replace` with a one-character
    pattern, and the byte-wise ordering used for ORDER BY on text. */
module Text {

  function LowerChar(c: char): char {
    if 'A' <= c <= 'Z' then (c as int + 32) as char else c
  }

  /** `s.toLowerCase()` on ASCII letters. */
  function Lower(s: string): (r: string)
    ensures |r| == |s|
    ensures forall i :: 0 <= i < |s| ==> r[i] == LowerChar(s[i])
  {
    if s == [] then [] else [LowerChar(s[0])] + Lower(s[1..])
  }

  /** `t` occurs in `s` starting at index `i`. */
  predicate OccursAt(s: string, t: string, i: nat) {
    i + |t| <= |s| && s[i..i + |t|] == t
  }

  /** `s.includes(t)`. */
  predicate Contains(s: string, t: string) {
    exists i :: 0 <= i <= |s| && OccursAt(s, t, i)
  }

  /** The empty string occurs in every string. */
  lemma ContainsEmpty(s: string)
    ensures Contains(s, "")
  {
    assert OccursAt(s, "", 0);
  }

  /** A string contains its own blocks: occurrence is transitive. */
  lemma ContainsTransitive(s: string, t: string, u: string)
    requires Contains(s, t) && Contains(t, u)
    ensures Contains(s, u)
  {
    var i :| 0 <= i <= |s| && OccursAt(s, t, i);
    var j :| 0 <= j <= |t| && OccursAt(t, u, j);
    forall k | 0 <= k < |u| ensures s[i + j + k] == u[k] {
      assert u[k] == t[j + k] == s[i + j + k];
    }
    assert s[i + j..i + j + |u|] == u;
    assert OccursAt(s, u, i + j);
  }

  /** Lowercasing both sides keeps an occurrence. */
  lemma LowerContains(s: string, t: string)
    requires Contains(s, t)
    ensures Contains(Lower(s), Lower(t))
  {
    var i :| 0 <= i <= |s| && OccursAt(s, t, i);
    var ls, lt := Lower(s), Lower(t);
    forall k | 0 <= k < |t| ensures ls[i + k] == lt[k] {
      assert s[i + k] == t[k];
    }
    assert ls[i..i + |t|] == lt;
    assert OccursAt(ls, lt, i);
  }

  /** Case-insensitive search as the screens write it:
      `s.toLowerCase().includes(term.toLowerCase())`. */
  predicate MatchesFolded(s: string, term: string) {
    Contains(Lower(s), Lower(term))
  }

  /** A longer search term that contains a shorter one only matches where
      the shorter one matches too. */
  lemma MatchesFoldedNarrows(s: string, shorter: string, longer: string)
    requires Contains(longer, shorter) && MatchesFolded(s, longer)
    ensures MatchesFolded(s, shorter)
  {
    LowerContains(longer, shorter);
    ContainsTransitive(Lower(s), Lower(longer), Lower(shorter));
  }

  /** A term that agrees, up to case, with the start of a string matches it. */
  lemma MatchesFoldedPrefix(s: string, term: string)
    requires |term| <= |s|
    requires forall i :: 0 <= i < |term| ==> LowerChar(s[i]) == LowerChar(term[i])
    ensures MatchesFolded(s, term)
  {
    var ls, lt := Lower(s), Lower(term);
    assert ls[..|term|] == lt;
    assert OccursAt(ls, lt, 0);
  }

  /** The empty search term matches everything. */
  lemma MatchesFoldedEmpty(s: string)
    ensures MatchesFolded(s, "")
  {
    ContainsEmpty(Lower(s));
  }

  /** Lower-casing twice is lower-casing once. */
  lemma LowerIdempotent(s: string)
    ensures Lower(Lower(s)) == Lower(s)
  {
    var l := Lower(s);
    forall i | 0 <= i < |s| ensures Lower(l)[i] == l[i] {
      assert LowerChar(LowerChar(s[i])) == LowerChar(s[i]);
    }
  }

  /** `s || d` on a string value, with the empty string standing for an
      absent, null or empty value (all falsy). */
  function OrDefault(s: string, d: string): (r: string)
    ensures s != "" ==> r == s
    ensures s == "" ==> r == d
  {
    if s == "" then d else s
  }

  /** The index of the first `c` in `s`. */
  function IndexOf(s: string, c: char): (i: nat)
    requires c in s
    ensures i < |s| && s[i] == c && c !in s[..i]
  {
    if s[0] == c then 0
    else
      var j := IndexOf(s[1..], c);
      assert s[..j + 1] == [s[0]] + s[1..][..j];
      1 + j
  }

  /** `s.split(sep)`: the fields between separators, empty fields included;
      there is always at least one field and none contains the separator. */
  function Split(s: string, sep: char): (r: seq<string>)
    ensures |r| >= 1
    ensures |r| >= 2 <==> sep in s
    ensures forall i :: 0 <= i < |r| ==> sep !in r[i]
    decreases |s|
  {
    if sep !in s then [s]
    else
      var i := IndexOf(s, sep);
      [s[..i]] + Split(s[i + 1..], sep)
  }

  /** `parts.join(sep)`. */
  function JoinWith(parts: seq<string>, sep: char): string {
    if parts == [] then ""
    else if |parts| == 1 then parts[0]
    else parts[0] + [sep] + JoinWith(parts[1..], sep)
  }

  /** Joining the fields of a split with the same separator gives back the
      original string. */
  lemma {:induction false} SplitJoin(s: string, sep: char)
    ensures JoinWith(Split(s, sep), sep) == s
    decreases |s|
  {
    if sep in s {
      var i := IndexOf(s, sep);
      var rest := Split(s[i + 1..], sep);
      SplitJoin(s[i + 1..], sep);
      assert Split(s, sep) == [s[..i]] + rest;
      assert ([s[..i]] + rest)[1..] == rest;
      assert s == s[..i] + [sep] + s[i + 1..];
    }
  }

  /** A prefix word, one separator and a separator-free rest split into
      exactly those two fields. */
  lemma SplitTwoFields(word: string, sep: char, rest: string)
    requires sep !in word && sep !in rest
    ensures Split(word + [sep] + rest, sep) == [word, rest]
  {
    var s := word + [sep] + rest;
    assert s[|word|] == sep;
    var i := IndexOf(s, sep);
    assert i == |word|;
    assert s[..i] == word && s[i + 1..] == rest;
  }

  /** `s.replace(from, to)` for one-character strings: only the first
      occurrence is replaced. */
  function ReplaceFirst(s: string, from: char, to: char): (r: string)
    ensures |r| == |s|
    ensures from !in s ==> r == s
    ensures from in s ==> r[IndexOf(s, from)] == to
    ensures from in s ==> forall k :: 0 <= k < |s| && k != IndexOf(s, from) ==> r[k] == s[k]
  {
    if from in s then
      var i := IndexOf(s, from);
      s[..i] + [to] + s[i + 1..]
    else s
  }

  /** Replacing the first `c` of a string whose prefix has none acts on the
      character right after that prefix. */
  lemma ReplaceFirstAfter(prefix: string, c: char, d: char, rest: string)
    requires c !in prefix
    ensures ReplaceFirst(prefix + [c] + rest, c, d) == prefix + [d] + rest
  {
    var s := prefix + [c] + rest;
    assert s[|prefix|] == c;
    assert s[..|prefix|] == prefix;
    assert IndexOf(s, c) == |prefix|;
    assert s[|prefix| + 1..] == rest;
  }

  /** Byte-wise ascending order on strings. */
  predicate StrLe(a: string, b: string) {
    if a == [] then true
    else if b == [] then false
    else if a[0] != b[0] then a[0] < b[0]
    else StrLe(a[1..], b[1..])
  }

  /** Any two strings are comparable. */
  lemma {:induction false} StrLeTotal(a: string, b: string)
    ensures StrLe(a, b) || StrLe(b, a)
  {
    if a != [] && b != [] && a[0] == b[0] {
      StrLeTotal(a[1..], b[1..]);
    }
  }

  /** The order is transitive. */
  lemma {:induction false} StrLeTransitive(a: string, b: string, c: string)
    requires StrLe(a, b) && StrLe(b, c)
    ensures StrLe(a, c)
  {
    if a != [] && b != [] && c != [] && a[0] == b[0] && b[0] == c[0] {
      StrLeTransitive(a[1..], b[1..], c[1..]);
    }
  }

  lemma StrLeTransitiveAll()
    ensures forall a, b, c :: StrLe(a, b) && StrLe(b, c) ==> StrLe(a, c)
  {
    forall a, b, c | StrLe(a, b) && StrLe(b, c) ensures StrLe(a, c) {
      StrLeTransitive(a, b, c);
    }
  }

  lemma StrLeTotalAll()
    ensures forall a, b :: StrLe(a, b) || StrLe(b, a)
  {
    forall a, b ensures StrLe(a, b) || StrLe(b, a) {
      StrLeTotal(a, b);
    }
  }
}
