/** The identifier extractor: `re.findall(r'CVE-\d{4}-\d{4,7}', text)` as an explicit
    left-to-right scanner over the characters of the text, and `extract_cve`, which
    turns its matches into a set. Digits are the ASCII digits. */
module CveScanner {
  import opened Wrappers
  import opened Fields

  predicate IsDigit(c: char) {
    '0' <= c <= '9'
  }

  /** The pattern itself: "CVE-", four digits, "-", four to seven digits. */
  predicate IsCveId(w: string) {
    && 13 <= |w| <= 16
    && w[0] == 'C' && w[1] == 'V' && w[2] == 'E' && w[3] == '-'
    && (forall k :: 4 <= k < 8 ==> IsDigit(w[k]))
    && w[8] == '-'
    && (forall k :: 9 <= k < |w| ==> IsDigit(w[k]))
  }

  /** The identifier of length n at position p is the one greedy `{4,7}` takes there:
      the digits stop, or the seventh digit has been taken. */
  predicate LongestMatchAt(s: string, p: nat, n: nat) {
    && p + n <= |s|
    && IsCveId(s[p..p + n])
    && (n == 16 || p + n == |s| || !IsDigit(s[p + n]))
  }

  /** x is the match that starts at position p of s. */
  predicate MatchedAt(s: string, p: nat, x: string) {
    LongestMatchAt(s, p, |x|) && s[p..p + |x|] == x
  }

  /** The number of consecutive digits of s from position i on. */
  function DigitRun(s: string, i: nat): (n: nat)
    requires i <= |s|
    ensures i + n <= |s|
    ensures forall k :: i <= k < i + n ==> IsDigit(s[k])
    ensures i + n == |s| || !IsDigit(s[i + n])
    decreases |s| - i
  {
    if i < |s| && IsDigit(s[i]) then 1 + DigitRun(s, i + 1) else 0
  }

  /** An identifier at p, character by character in s. */
  lemma MatchChars(s: string, p: nat, n: nat)
    requires p + n <= |s| && IsCveId(s[p..p + n])
    ensures s[p] == 'C' && s[p + 1] == 'V' && s[p + 2] == 'E' && s[p + 3] == '-' && s[p + 8] == '-'
    ensures forall k :: p + 4 <= k < p + 8 ==> IsDigit(s[k])
    ensures forall k :: p + 9 <= k < p + n ==> IsDigit(s[k])
  {
    var w := s[p..p + n];
    assert forall k :: p <= k < p + n ==> s[k] == w[k - p];
  }

  /** The converse of MatchChars. */
  lemma CharsMatch(s: string, p: nat, n: nat)
    requires p + n <= |s| && 13 <= n <= 16
    requires s[p] == 'C' && s[p + 1] == 'V' && s[p + 2] == 'E' && s[p + 3] == '-' && s[p + 8] == '-'
    requires forall k :: p + 4 <= k < p + 8 ==> IsDigit(s[k])
    requires forall k :: p + 9 <= k < p + n ==> IsDigit(s[k])
    ensures IsCveId(s[p..p + n])
  {
    var w := s[p..p + n];
    assert forall k :: 0 <= k < n ==> w[k] == s[p + k];
  }

  /** The characters of s from p on are "CVE-", four digits, "-", and at least four more digits. */
  predicate StartsMatch(s: string, p: nat)
    requires p <= |s|
  {
    p + 13 <= |s| && s[p] == 'C' && s[p + 1] == 'V' && s[p + 2] == 'E' && s[p + 3] == '-'
    && DigitRun(s, p + 4) >= 4 && s[p + 8] == '-' && DigitRun(s, p + 9) >= 4
  }

  /** The length greedy matching takes at p. */
  function GreedyLength(s: string, p: nat): nat
    requires p <= |s| && StartsMatch(s, p)
  {
    var run := DigitRun(s, p + 9);
    9 + (if run < 7 then run else 7)
  }

  /** Where a match of any length starts, the characters say so. */
  lemma MatchStarts(s: string, p: nat, n: nat)
    requires LongestMatchAt(s, p, n)
    ensures StartsMatch(s, p)
  {
    MatchChars(s, p, n);
    DigitRunAtLeast(s, p + 4, 4);
    DigitRunAtLeast(s, p + 9, 4);
  }

  /** Where a match starts, the greedy length is the only one it can have. */
  lemma GreedyLengthIsMatch(s: string, p: nat, n: nat)
    requires p <= |s| && StartsMatch(s, p)
    ensures LongestMatchAt(s, p, n) <==> n == GreedyLength(s, p)
  {
    var g := GreedyLength(s, p);
    CharsMatch(s, p, g);
    if LongestMatchAt(s, p, n) {
      MatchChars(s, p, n);
    }
  }

  /** The length of the match starting at p, if the pattern matches there. */
  function MatchAt(s: string, p: nat): (m: Option<nat>)
    requires p <= |s|
    ensures forall n: nat :: LongestMatchAt(s, p, n) <==> m == Some(n)
  {
    if StartsMatch(s, p) then
      assert forall n: nat :: LongestMatchAt(s, p, n) <==> n == GreedyLength(s, p) by {
        forall n: nat ensures LongestMatchAt(s, p, n) <==> n == GreedyLength(s, p) {
          GreedyLengthIsMatch(s, p, n);
        }
      }
      Some(GreedyLength(s, p))
    else
      assert forall n: nat :: LongestMatchAt(s, p, n) ==> StartsMatch(s, p) by {
        forall n: nat ensures LongestMatchAt(s, p, n) ==> StartsMatch(s, p) {
          if LongestMatchAt(s, p, n) {
            MatchStarts(s, p, n);
          }
        }
      }
      None
  }

  /** A run of k digits from i on makes the digit run at least k long. */
  lemma {:induction false} DigitRunAtLeast(s: string, i: nat, k: nat)
    requires i + k <= |s|
    requires forall j :: i <= j < i + k ==> IsDigit(s[j])
    ensures DigitRun(s, i) >= k
    decreases k
  {
    if k > 0 {
      DigitRunAtLeast(s, i + 1, k - 1);
    }
  }

  /** The scanner: try a match at i; after one, resume right behind it (matches never
      overlap), otherwise move on by one character. */
  function ScanFrom(s: string, i: nat): seq<string>
    requires i <= |s|
    decreases |s| - i
  {
    if i == |s| then []
    else
      match MatchAt(s, i)
      case Some(n) => [s[i..i + n]] + ScanFrom(s, i + n)
      case None => ScanFrom(s, i + 1)
  }

  /** `re.findall(CVE_REGEX, s)`: every match, left to right, duplicates kept. */
  function FindAll(s: string): seq<string> {
    ScanFrom(s, 0)
  }

  /** No match starts inside another one: after its first character a match holds no 'C'. */
  lemma NoMatchInside(s: string, i: nat, n: nat, p: nat)
    requires LongestMatchAt(s, i, n)
    requires i < p < i + n
    ensures MatchAt(s, p) == None
  {
    MatchChars(s, i, n);
  }

  /** A match lies inside the text. */
  lemma MatchedFits(s: string, p: nat, x: string)
    ensures MatchedAt(s, p, x) ==> p + 13 <= |s|
  {
  }

  /** The pattern matches x at position i or later. */
  ghost predicate FoundFrom(s: string, i: nat, x: string) {
    exists p :: i <= p && MatchedAt(s, p, x)
  }

  /** Where no match starts at i, the matches from i on are those from i + 1 on. */
  lemma SkipNoMatch(s: string, i: nat, x: string)
    requires i < |s| && MatchAt(s, i) == None
    ensures FoundFrom(s, i, x) <==> FoundFrom(s, i + 1, x)
  {
    if FoundFrom(s, i, x) {
      var p :| i <= p && MatchedAt(s, p, x);
      assert LongestMatchAt(s, p, |x|);
      assert p != i;
      assert i + 1 <= p;
    }
  }

  /** Where the match s[i..i + n] starts at i, the matches from i on are it and those from i + n on. */
  lemma SkipMatch(s: string, i: nat, n: nat, x: string)
    requires i < |s| && MatchAt(s, i) == Some(n)
    ensures FoundFrom(s, i, x) <==> (x == s[i..i + n] || FoundFrom(s, i + n, x))
  {
    assert LongestMatchAt(s, i, n);
    if x == s[i..i + n] {
      assert MatchedAt(s, i, x);
    }
    if FoundFrom(s, i + n, x) {
      var p :| i + n <= p && MatchedAt(s, p, x);
      assert i <= p;
    }
    if FoundFrom(s, i, x) {
      var p :| i <= p && MatchedAt(s, p, x);
      assert LongestMatchAt(s, p, |x|);
      if p == i {
        assert |x| == n;
      } else if p < i + n {
        NoMatchInside(s, i, n, p);
      }
    }
  }

  /** Past the end of the text nothing matches. */
  lemma NothingFoundAtEnd(s: string, x: string)
    ensures !FoundFrom(s, |s|, x)
  {
    forall p: nat ensures MatchedAt(s, p, x) ==> p < |s| {
      MatchedFits(s, p, x);
    }
  }

  /** The scanner finds exactly the matches that start at position i or later. */
  lemma {:induction false} ScanFromFinds(s: string, i: nat, x: string)
    requires i <= |s|
    ensures x in ScanFrom(s, i) <==> FoundFrom(s, i, x)
    decreases |s| - i
  {
    if i == |s| {
      NothingFoundAtEnd(s, x);
    } else if MatchAt(s, i).None? {
      ScanFromFinds(s, i + 1, x);
      SkipNoMatch(s, i, x);
    } else {
      var n := MatchAt(s, i).value;
      ScanFromFinds(s, i + n, x);
      ScanStepMatch(s, i, n, x);
    }
  }

  lemma ScanStepMatch(s: string, i: nat, n: nat, x: string)
    requires i < |s| && MatchAt(s, i) == Some(n)
    requires x in ScanFrom(s, i + n) <==> FoundFrom(s, i + n, x)
    ensures x in ScanFrom(s, i) <==> FoundFrom(s, i, x)
  {
    SkipMatch(s, i, n, x);
    assert ScanFrom(s, i) == [s[i..i + n]] + ScanFrom(s, i + n);
  }

  /** The matches of `findall`, in the terms of the pattern. */
  lemma FindAllFinds(s: string, x: string)
    ensures x in FindAll(s) <==> exists p :: MatchedAt(s, p, x)
  {
    ScanFromFinds(s, 0, x);
    assert FoundFrom(s, 0, x) <==> exists p :: MatchedAt(s, p, x);
  }

  /** `extract_cve(text)`: no text (absent, empty or any falsy value) gives the empty set;
      a string gives the set of its matches; any other truthy value makes `re.findall`
      raise a TypeError, which is `None` here. */
  function ExtractCve(text: Field): (r: Option<set<string>>)
    ensures !Truthy(text) ==> r == Some({})
    ensures r == None <==> text.Other? && text.truthy
  {
    if !Truthy(text) then Some({})
    else if text.Other? then None
    else Some(set x | x in FindAll(text.s))
  }

  /** Every identifier `extract_cve` returns is well formed: `CVE-`, four digits, `-`, four
      to seven digits. */
  lemma ExtractCveWellFormed(text: Field, x: string)
    requires ExtractCve(text).Some? && x in ExtractCve(text).value
    ensures IsCveId(x)
  {
    FindAllFinds(text.s, x);
  }

  /** The set `extract_cve` returns for a string holds every match and nothing else. */
  lemma ExtractCveExact(s: string, x: string)
    ensures ExtractCve(Str(s)).Some?
    ensures x in ExtractCve(Str(s)).value <==> exists p :: MatchedAt(s, p, x)
  {
    FindAllFinds(s, x);
  }
}
