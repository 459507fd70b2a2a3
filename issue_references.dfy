/**
 * Issue and pull-request references in a commit message.
 *
 * The extractor runs five global regular expressions over the message, one after
 * the other, collects the full text of every match (pattern by pattern, and left
 * to right within a pattern), then drops repeats, keeping each reference where it
 * was first seen. Each regular expression is modelled by a hand-written matcher
 * with the same leftmost, greedy, non-overlapping behaviour.
 */
module IssueReferences {
  import opened Common

  /** The five reference patterns, in the order the extractor applies them. */
  datatype Pattern =
    | GitHubIssue         // `#(\d+)`
    | AzureBoards         // `AB#(\d+)`, ignoring case
    | GitLabMergeRequest  // `!(\d+)`
    | JiraTicket          // `[A-Z]+-\d+`
    | ClosingKeyword      // `(?:fixes?|closes?|resolves?)\s+#(\d+)`, ignoring case

  const Patterns: seq<Pattern> := [GitHubIssue, AzureBoards, GitLabMergeRequest, JiraTicket, ClosingKeyword]

  /** The character classes the patterns use: `\d`, `[A-Z]` and `\s`. */
  datatype CharClass = Digit | Upper | Space

  predicate InClass(c: char, cls: CharClass) {
    match cls
    case Digit => '0' <= c <= '9'
    case Upper => 'A' <= c <= 'Z'
    case Space =>
      // JavaScript's `\s`: the ASCII blanks and the Unicode space separators
      || c == ' ' || c == '\t' || c == '\n' || c == '\r' || c == '\U{000B}' || c == '\U{000C}'
      || c == '\U{00A0}' || c == '\U{1680}' || ('\U{2000}' <= c <= '\U{200A}')
      || c == '\U{2028}' || c == '\U{2029}' || c == '\U{202F}' || c == '\U{205F}'
      || c == '\U{3000}' || c == '\U{FEFF}'
  }

  /**
   * `c` is the letter `lower` under the `i` flag: without the `u` flag only the
   * ASCII upper-case partner folds onto an ASCII letter.
   */
  predicate SameLetter(c: char, lower: char) {
    c == lower || ('a' <= lower <= 'z' && c as int == lower as int - 32)
  }

  /** `s` spells `word` (lower-case letters) at position `i`, ignoring case. */
  predicate WordAt(s: string, i: nat, word: string)
    ensures WordAt(s, i, word) ==> i + |word| <= |s|
    decreases |word|
  {
    if word == [] then i <= |s|
    else i < |s| && SameLetter(s[i], word[0]) && WordAt(s, i + 1, word[1..])
  }

  /** The end of the longest run of `cls` characters that starts at `i`. */
  function RunEnd(s: string, i: nat, cls: CharClass): (j: nat)
    requires i <= |s|
    ensures i <= j <= |s|
    ensures forall k :: i <= k < j ==> InClass(s[k], cls)
    ensures j == |s| || !InClass(s[j], cls)
    decreases |s| - i
  {
    if i < |s| && InClass(s[i], cls) then RunEnd(s, i + 1, cls) else i
  }

  /** A greedy `x+` at `i`: the end of the run when it holds at least one character. */
  function NonEmptyRun(s: string, i: nat, cls: CharClass): (r: Option<nat>)
    requires i <= |s|
    ensures r.Some? ==> i < r.value <= |s|
  {
    if i < |s| && InClass(s[i], cls) then Some(RunEnd(s, i, cls)) else None
  }

  /**
   * `fixes?`, `closes?` or `resolves?` at `i`, ignoring case. As written, `fixes?`
   * is "fixe" with an optional "s", so "fix" alone is no keyword.
   */
  function KeywordEnd(s: string, i: nat): (r: Option<nat>)
    requires i <= |s|
    ensures r.Some? ==> i < r.value <= |s|
  {
    var stem :=
      if WordAt(s, i, "fixe") then Some(i + 4)
      else if WordAt(s, i, "close") then Some(i + 5)
      else if WordAt(s, i, "resolve") then Some(i + 7)
      else None;
    match stem
    case None => None
    case Some(k) => if k < |s| && SameLetter(s[k], 's') then Some(k + 1) else Some(k)
  }

  /**
   * The end of the match of `p` that starts exactly at `i`, if there is one.
   * Greedy runs never need to give characters back here: the character that must
   * follow each run never belongs to the run's own class.
   */
  function MatchAt(p: Pattern, s: string, i: nat): (r: Option<nat>)
    requires i <= |s|
    ensures r.Some? ==> i < r.value <= |s|
  {
    match p
    case GitHubIssue =>
      if i < |s| && s[i] == '#' then NonEmptyRun(s, i + 1, Digit) else None
    case AzureBoards =>
      if i + 2 < |s| && SameLetter(s[i], 'a') && SameLetter(s[i + 1], 'b') && s[i + 2] == '#'
      then NonEmptyRun(s, i + 3, Digit) else None
    case GitLabMergeRequest =>
      if i < |s| && s[i] == '!' then NonEmptyRun(s, i + 1, Digit) else None
    case JiraTicket =>
      (match NonEmptyRun(s, i, Upper)
       case None => None
       case Some(k) => if k < |s| && s[k] == '-' then NonEmptyRun(s, k + 1, Digit) else None)
    case ClosingKeyword =>
      (match KeywordEnd(s, i)
       case None => None
       case Some(k) =>
         (match NonEmptyRun(s, k, Space)
          case None => None
          case Some(m) => if m < |s| && s[m] == '#' then NonEmptyRun(s, m + 1, Digit) else None))
  }

  /**
   * The full texts of the successive matches of `p` in `s` from position `i`:
   * a failed attempt moves on by one character, a match resumes at its end
   * (`matchAll` with the `g` flag).
   */
  function MatchesFrom(p: Pattern, s: string, i: nat): (ms: seq<string>)
    requires i <= |s|
    ensures forall r :: r in ms ==> IsMatchOf(p, s, r)
    decreases |s| - i
  {
    if i == |s| then []
    else match MatchAt(p, s, i)
      case Some(j) =>
        assert IsMatchOf(p, s, s[i..j]);
        [s[i..j]] + MatchesFrom(p, s, j)
      case None => MatchesFrom(p, s, i + 1)
  }

  function Matches(p: Pattern, s: string): seq<string> {
    MatchesFrom(p, s, 0)
  }

  /** The matches of each pattern of `ps` in turn, concatenated. */
  function MatchesOfAll(ps: seq<Pattern>, s: string): seq<string> {
    if ps == [] then [] else MatchesOfAll(ps[..|ps| - 1], s) + Matches(ps[|ps| - 1], s)
  }

  /** Every match of every pattern, before repeats are removed. */
  function AllMatches(s: string): seq<string> {
    MatchesOfAll(Patterns, s)
  }

  /**
   * `xs` with each value kept only at its first occurrence (`Array.from(new Set(xs))`):
   * no value twice, and exactly the values of `xs`.
   */
  function Dedup<T(==)>(xs: seq<T>): (d: seq<T>)
    ensures NoDuplicates(d)
    ensures forall k :: 0 <= k < |d| ==> d[k] in xs
    ensures forall k :: 0 <= k < |xs| ==> xs[k] in d
  {
    if xs == [] then []
    else
      var init := xs[..|xs| - 1];
      var d := Dedup(init);
      assert xs == init + [xs[|xs| - 1]];
      if xs[|xs| - 1] in d then d else d + [xs[|xs| - 1]]
  }

  /** What `extractIssueReferences` returns for `message`. */
  function ReferencesIn(message: string): seq<string> {
    Dedup(AllMatches(message))
  }

  predicate NoDuplicates<T(==)>(xs: seq<T>) {
    forall i, j :: 0 <= i < j < |xs| ==> xs[i] != xs[j]
  }

  /** The position of the first occurrence of `x` in `xs`. */
  function IndexOf<T(==)>(xs: seq<T>, x: T): (k: nat)
    requires x in xs
    ensures k < |xs| && xs[k] == x && x !in xs[..k]
  {
    if xs[0] == x then 0 else assert xs == [xs[0]] + xs[1..]; 1 + IndexOf(xs[1..], x)
  }

  /** `r` is the full text of a match of `p` somewhere in `s`. */
  ghost predicate IsMatchOf(p: Pattern, s: string, r: string) {
    exists a :: 0 <= a <= |s| && MatchAt(p, s, a).Some? && r == s[a..MatchAt(p, s, a).value]
  }

  /** `r` occurs in `s` starting at position `a`. */
  ghost predicate OccursAt(r: string, s: string, a: nat) {
    a + |r| <= |s| && s[a..a + |r|] == r
  }

  ghost predicate IsSubstring(r: string, s: string) {
    exists a: nat :: OccursAt(r, s, a)
  }

  /** `for (const match of matches) references.push(match[0])`. */
  method PushMatches(references: seq<string>, matches: seq<string>) returns (pushed: seq<string>)
    ensures pushed == references + matches
  {
    pushed := references;
    for m := 0 to |matches|
      invariant pushed == references + matches[..m]
    {
      pushed := pushed + [matches[m]];
    }
    assert matches[..|matches|] == matches;
  }

  /** The pattern passes: every match of every pattern of `ps`, pushed in turn. */
  method CollectMatches(ps: seq<Pattern>, message: string) returns (references: seq<string>)
    ensures references == MatchesOfAll(ps, message)
  {
    references := [];
    for p := 0 to |ps|
      invariant references == MatchesOfAll(ps[..p], message)
    {
      assert ps[..p + 1][..p] == ps[..p];
      references := PushMatches(references, Matches(ps[p], message));
    }
    assert ps[..|ps|] == ps;
  }

  /** `Array.from(new Set(xs))`: a set of the values seen so far decides what is kept. */
  method RemoveRepeats<T(==)>(xs: seq<T>) returns (kept: seq<T>)
    ensures kept == Dedup(xs)
    ensures NoDuplicates(kept)
  {
    var seen: set<T> := {};
    kept := [];
    for k := 0 to |xs|
      invariant kept == Dedup(xs[..k])
      invariant forall x :: x in seen <==> x in kept
    {
      assert xs[..k + 1][..k] == xs[..k];
      if xs[k] !in seen {
        seen := seen + {xs[k]};
        kept := kept + [xs[k]];
      }
    }
    assert xs[..|xs|] == xs;
  }

  /** The extractor: the pattern passes, then the removal of repeats. */
  method ExtractIssueReferences(message: string) returns (refs: seq<string>)
    ensures refs == ReferencesIn(message)
    ensures NoDuplicates(refs)
  {
    var references := CollectMatches(Patterns, message);
    refs := RemoveRepeats(references);
  }

  /** The first occurrence of `x` is the only position before which `x` does not occur. */
  lemma IndexOfUnique<T>(xs: seq<T>, x: T, k: nat)
    requires k < |xs| && xs[k] == x && x !in xs[..k]
    ensures IndexOf(xs, x) == k
  {
  }

  /** Appending to a sequence does not move the first occurrences already in it. */
  lemma IndexOfExtend<T>(xs: seq<T>, y: T, x: T)
    requires x in xs
    ensures IndexOf(xs + [y], x) == IndexOf(xs, x)
  {
    var k := IndexOf(xs, x);
    assert (xs + [y])[..k] == xs[..k];
    IndexOfUnique(xs + [y], x, k);
  }

  /** Dedup lists the values in the order of their first occurrence in the input. */
  lemma {:induction false} DedupFirstSeenOrder<T>(xs: seq<T>)
    ensures forall x :: x in Dedup(xs) ==> x in xs
    ensures forall i, j :: 0 <= i < j < |Dedup(xs)| ==>
      IndexOf(xs, Dedup(xs)[i]) < IndexOf(xs, Dedup(xs)[j])
  {
    if xs != [] {
      var init, y := xs[..|xs| - 1], xs[|xs| - 1];
      assert xs == init + [y];
      var d, dx := Dedup(init), Dedup(xs);
      assert dx == if y in d then d else d + [y];
      DedupFirstSeenOrder(init);
      forall i, j | 0 <= i < j < |dx|
        ensures IndexOf(xs, dx[i]) < IndexOf(xs, dx[j])
      {
        assert dx[i] == d[i];
        IndexOfExtend(init, y, d[i]);
        if j < |d| {
          assert dx[j] == d[j];
          IndexOfExtend(init, y, d[j]);
        } else {
          assert dx[j] == y && y !in init;
          assert xs[..|init|] == init;
          IndexOfUnique(xs, y, |init|);
        }
      }
    }
  }

  lemma {:induction false} MatchesOfAllSound(ps: seq<Pattern>, s: string)
    ensures forall r :: r in MatchesOfAll(ps, s) ==> exists p :: p in ps && IsMatchOf(p, s, r)
  {
    if ps != [] {
      var init := ps[..|ps| - 1];
      MatchesOfAllSound(init, s);
      forall r | r in MatchesOfAll(ps, s)
        ensures exists p :: p in ps && IsMatchOf(p, s, r)
      {
        if r in MatchesOfAll(init, s) {
          var p :| p in init && IsMatchOf(p, s, r);
          assert p in ps;
        } else {
          assert IsMatchOf(ps[|ps| - 1], s, r);
        }
      }
    }
  }

  /** Every text collected over the patterns `ps` occurs in the message. */
  lemma MatchesOfAllSubstrings(ps: seq<Pattern>, s: string)
    ensures forall r :: r in MatchesOfAll(ps, s) ==> IsSubstring(r, s)
  {
    MatchesOfAllSound(ps, s);
    forall r | r in MatchesOfAll(ps, s)
      ensures IsSubstring(r, s)
    {
      var p :| p in ps && IsMatchOf(p, s, r);
      var a :| 0 <= a <= |s| && MatchAt(p, s, a).Some? && r == s[a..MatchAt(p, s, a).value];
      assert OccursAt(r, s, a);
    }
  }

  /** The deduplicated matches of the patterns `ps`, for any list of patterns. */
  lemma DedupOfMatches(ps: seq<Pattern>, s: string)
    ensures NoDuplicates(Dedup(MatchesOfAll(ps, s)))
    ensures forall r :: r in Dedup(MatchesOfAll(ps, s)) <==> r in MatchesOfAll(ps, s)
    ensures forall i, j :: 0 <= i < j < |Dedup(MatchesOfAll(ps, s))| ==>
      IndexOf(MatchesOfAll(ps, s), Dedup(MatchesOfAll(ps, s))[i])
        < IndexOf(MatchesOfAll(ps, s), Dedup(MatchesOfAll(ps, s))[j])
    ensures forall r :: r in Dedup(MatchesOfAll(ps, s)) ==>
      (exists p :: p in ps && IsMatchOf(p, s, r)) && IsSubstring(r, s)
  {
    var all := MatchesOfAll(ps, s);
    DedupFirstSeenOrder(all);
    MatchesOfAllSound(ps, s);
    MatchesOfAllSubstrings(ps, s);
  }

  /**
   * The references are exactly the matched texts, each once, in the order in which
   * the pattern passes first produced them; each is the full match of one of the
   * five patterns and therefore a piece of the message.
   */
  lemma ReferencesInSpec(message: string)
    ensures NoDuplicates(ReferencesIn(message))
    ensures forall r :: r in ReferencesIn(message) <==> r in AllMatches(message)
    ensures forall i, j :: 0 <= i < j < |ReferencesIn(message)| ==>
      IndexOf(AllMatches(message), ReferencesIn(message)[i])
        < IndexOf(AllMatches(message), ReferencesIn(message)[j])
    ensures forall r :: r in ReferencesIn(message) ==>
      (exists p :: p in Patterns && IsMatchOf(p, message, r)) && IsSubstring(r, message)
  {
    DedupOfMatches(Patterns, message);
  }

  /** The characters a match of `p` can begin with. */
  predicate CanStart(p: Pattern, c: char) {
    match p
    case GitHubIssue => c == '#'
    case AzureBoards => SameLetter(c, 'a')
    case GitLabMergeRequest => c == '!'
    case JiraTicket => InClass(c, Upper)
    case ClosingKeyword => SameLetter(c, 'f') || SameLetter(c, 'c') || SameLetter(c, 'r')
  }

  /** No position in `[i, j)` of `s` holds a character a match of `p` can begin with. */
  predicate NoneCanStart(p: Pattern, s: string, i: nat, j: nat)
    requires i <= j <= |s|
    decreases j - i
  {
    i == j || (!CanStart(p, s[i]) && NoneCanStart(p, s, i + 1, j))
  }

  lemma MatchStartsRight(p: Pattern, s: string, i: nat)
    requires i < |s| && MatchAt(p, s, i).Some?
    ensures CanStart(p, s[i])
  {
  }

  /** The scan passes over a stretch where no match can begin. */
  lemma {:induction false} SkipStretch(p: Pattern, s: string, i: nat, j: nat)
    requires i <= j <= |s| && NoneCanStart(p, s, i, j)
    ensures MatchesFrom(p, s, i) == MatchesFrom(p, s, j)
    decreases j - i
  {
    if i < j {
      if MatchAt(p, s, i).Some? {
        MatchStartsRight(p, s, i);
      }
      SkipStretch(p, s, i + 1, j);
    }
  }

  /** A match found at `i` is reported, and the scan resumes where it ends. */
  lemma TakeMatch(p: Pattern, s: string, i: nat, j: nat)
    requires i < |s| && MatchAt(p, s, i) == Some(j)
    ensures MatchesFrom(p, s, i) == [s[i..j]] + MatchesFrom(p, s, j)
  {
  }

  /** Every pattern needs a `#`, a `!` or a `-`, so a message without them references nothing. */
  lemma NoMarkerNoReferences(message: string)
    requires forall k :: 0 <= k < |message| ==> message[k] != '#' && message[k] != '!' && message[k] != '-'
    ensures ReferencesIn(message) == []
  {
    NoMarkerNoMatchesOfAll(Patterns, message);
  }

  lemma {:induction false} NoMarkerNoMatchesOfAll(ps: seq<Pattern>, s: string)
    requires forall k :: 0 <= k < |s| ==> s[k] != '#' && s[k] != '!' && s[k] != '-'
    ensures MatchesOfAll(ps, s) == []
  {
    if ps != [] {
      NoMarkerNoMatchesOfAll(ps[..|ps| - 1], s);
      NoMarkerNoMatches(ps[|ps| - 1], s, 0);
    }
  }

  lemma {:induction false} NoMarkerNoMatches(p: Pattern, s: string, i: nat)
    requires i <= |s|
    requires forall k :: 0 <= k < |s| ==> s[k] != '#' && s[k] != '!' && s[k] != '-'
    ensures MatchesFrom(p, s, i) == []
    decreases |s| - i
  {
    if i < |s| {
      assert MatchAt(p, s, i).None?;
      NoMarkerNoMatches(p, s, i + 1);
    }
  }

  /** All matches are listed pattern by pattern, in the order of the pattern list. */
  lemma AllMatchesInPatternOrder(s: string)
    ensures AllMatches(s) ==
      Matches(GitHubIssue, s) + Matches(AzureBoards, s) + Matches(GitLabMergeRequest, s)
        + Matches(JiraTicket, s) + Matches(ClosingKeyword, s)
  {
    var ps := Patterns;
    assert ps[..4] == [GitHubIssue, AzureBoards, GitLabMergeRequest, JiraTicket];
    assert ps[..4][..3] == [GitHubIssue, AzureBoards, GitLabMergeRequest];
    assert ps[..4][..3][..2] == [GitHubIssue, AzureBoards];
    assert ps[..4][..3][..2][..1] == [GitHubIssue];
    assert ps[..4][..3][..2][..1][..0] == [];
    assert MatchesOfAll(ps, s) == MatchesOfAll(ps[..4], s) + Matches(ClosingKeyword, s);
    assert MatchesOfAll(ps[..4], s) == MatchesOfAll(ps[..4][..3], s) + Matches(JiraTicket, s);
    assert MatchesOfAll(ps[..4][..3], s) == MatchesOfAll(ps[..4][..3][..2], s) + Matches(GitLabMergeRequest, s);
    assert MatchesOfAll(ps[..4][..3][..2], s) == MatchesOfAll(ps[..4][..3][..2][..1], s) + Matches(AzureBoards, s);
    assert MatchesOfAll([GitHubIssue], s) == Matches(GitHubIssue, s);
  }

  // The matchers against the regular expressions. `MatchSpan(p, s, i, j)` says,
  // piece by piece, that `s[i..j]` is the text the regular expression of `p`
  // matches when it is tried at position `i`.

  /** `s[a..b]` is a non-empty run of `cls` characters. */
  ghost predicate Run(s: string, a: nat, b: nat, cls: CharClass) {
    a < b <= |s| && forall k :: a <= k < b ==> InClass(s[k], cls)
  }

  /** A greedy `x+` with nothing after it: a run that the next character does not extend. */
  ghost predicate LongestRun(s: string, a: nat, b: nat, cls: CharClass) {
    Run(s, a, b, cls) && (b == |s| || !InClass(s[b], cls))
  }

  /** ASCII upper-case letters in lower case; every other character unchanged. */
  function LowerAscii(c: char): char {
    if 'A' <= c <= 'Z' then (c as int + 32) as char else c
  }

  function Lowered(t: string): string {
    seq(|t|, n requires 0 <= n < |t| => LowerAscii(t[n]))
  }

  /**
   * `s[i..k]` is one of the alternatives of `(?:fixes?|closes?|resolves?)`, written
   * out, ignoring ASCII case.
   */
  ghost predicate ClosingWord(s: string, i: nat, k: nat) {
    i <= k <= |s| && Lowered(s[i..k]) in {"fixe", "fixes", "close", "closes", "resolve", "resolves"}
  }

  /** `s[i..j]` is what the regular expression of `p` matches when tried at `i`. */
  ghost predicate MatchSpan(p: Pattern, s: string, i: nat, j: nat) {
    match p
    case GitHubIssue =>
      i < |s| && s[i] == '#' && LongestRun(s, i + 1, j, Digit)
    case AzureBoards =>
      i + 2 < |s| && SameLetter(s[i], 'a') && SameLetter(s[i + 1], 'b') && s[i + 2] == '#'
      && LongestRun(s, i + 3, j, Digit)
    case GitLabMergeRequest =>
      i < |s| && s[i] == '!' && LongestRun(s, i + 1, j, Digit)
    case JiraTicket =>
      exists k: nat :: Run(s, i, k, Upper) && k < |s| && s[k] == '-' && LongestRun(s, k + 1, j, Digit)
    case ClosingKeyword =>
      exists k: nat, m: nat :: ClosingWord(s, i, k) && Run(s, k, m, Space) && m < |s| && s[m] == '#'
        && LongestRun(s, m + 1, j, Digit)
  }

  /** A greedy `x+` at `a` ends exactly where the longest run of `cls` ends. */
  lemma NonEmptyRunIsLongestRun(s: string, a: nat, cls: CharClass)
    requires a <= |s|
    ensures NonEmptyRun(s, a, cls).Some? ==> LongestRun(s, a, NonEmptyRun(s, a, cls).value, cls)
    ensures forall b: nat :: LongestRun(s, a, b, cls) ==> NonEmptyRun(s, a, cls) == Some(b)
  {
    forall b: nat | LongestRun(s, a, b, cls)
      ensures NonEmptyRun(s, a, cls) == Some(b)
    {
      LongestRunIsNonEmptyRun(s, a, b, cls);
    }
  }

  lemma LongestRunIsNonEmptyRun(s: string, a: nat, b: nat, cls: CharClass)
    requires LongestRun(s, a, b, cls)
    ensures NonEmptyRun(s, a, cls) == Some(b)
  {
  }

  /** "fixe" followed by "s" is "fixes", and likewise for the other stems. */
  lemma {:induction false} WordAtPlural(s: string, i: nat, stem: string)
    requires WordAt(s, i, stem + "s")
    ensures WordAt(s, i, stem) && i + |stem| < |s| && SameLetter(s[i + |stem|], 's')
    decreases |stem|
  {
    if stem != [] {
      assert (stem + "s")[1..] == stem[1..] + "s";
      WordAtPlural(s, i + 1, stem[1..]);
    }
  }

  lemma {:induction false} WordAtPluralize(s: string, i: nat, stem: string)
    requires WordAt(s, i, stem) && i + |stem| < |s| && SameLetter(s[i + |stem|], 's')
    ensures WordAt(s, i, stem + "s")
    decreases |stem|
  {
    if stem == [] {
      assert stem + "s" == "s";
    } else {
      assert (stem + "s")[1..] == stem[1..] + "s";
      WordAtPluralize(s, i + 1, stem[1..]);
    }
  }

  /** At `i`, the stem alone or the stem followed by `s` ends at `k`, ignoring case. */
  lemma StemOrPlural(s: string, i: nat, stem: string, k: nat)
    ensures ((k == i + |stem| && WordAt(s, i, stem)) || (k == i + |stem| + 1 && WordAt(s, i, stem + "s")))
      <==> (WordAt(s, i, stem) && (k == i + |stem|
        || (k == i + |stem| + 1 && i + |stem| < |s| && SameLetter(s[i + |stem|], 's'))))
  {
    if WordAt(s, i, stem + "s") {
      WordAtPlural(s, i, stem);
    }
    if WordAt(s, i, stem) && i + |stem| < |s| && SameLetter(s[i + |stem|], 's') {
      WordAtPluralize(s, i, stem);
    }
  }

  /** A word found at `i` begins with the letter at `i`. */
  lemma WordAtFirst(s: string, i: nat, word: string)
    requires word != [] && WordAt(s, i, word)
    ensures i < |s| && SameLetter(s[i], word[0])
  {
  }

  /**
   * `KeywordEnd` finds a closing keyword exactly when one is spelled at `i`, and
   * takes the optional `s` whenever it is there.
   */
  lemma KeywordEndIsClosingWord(s: string, i: nat)
    requires i <= |s|
    ensures KeywordEnd(s, i).Some? ==> ClosingWord(s, i, KeywordEnd(s, i).value)
    ensures forall k: nat :: ClosingWord(s, i, k) ==>
      KeywordEnd(s, i).Some? && (k == KeywordEnd(s, i).value
        || (k + 1 == KeywordEnd(s, i).value && SameLetter(s[k], 's')))
  {
    if WordAt(s, i, "fixe") { WordAtFirst(s, i, "fixe"); }
    if WordAt(s, i, "close") { WordAtFirst(s, i, "close"); }
    if WordAt(s, i, "resolve") { WordAtFirst(s, i, "resolve"); }
    forall k: nat {
      ClosingWordByStem(s, i, k);
    }
  }

  /** Without upper-case letters in `word`, the matcher's `WordAt` is comparison after lowering. */
  lemma {:induction false} WordAtLowered(s: string, i: nat, word: string)
    requires forall n :: 0 <= n < |word| ==> !('A' <= word[n] <= 'Z')
    ensures WordAt(s, i, word) <==> i + |word| <= |s| && Lowered(s[i..i + |word|]) == word
    decreases |word|
  {
    if word != [] {
      WordAtLowered(s, i + 1, word[1..]);
      if i + |word| <= |s| {
        var t := s[i..i + |word|];
        assert Lowered(t) == [LowerAscii(t[0])] + Lowered(s[i + 1..i + |word|]);
        assert Lowered(t) == word <==> LowerAscii(t[0]) == word[0] && Lowered(s[i + 1..i + |word|]) == word[1..];
      }
    }
  }

  /** The six keywords, word by word. */
  lemma ClosingWordSpelled(s: string, i: nat, k: nat)
    ensures ClosingWord(s, i, k) <==>
      || (k == i + 4 && WordAt(s, i, "fixe")) || (k == i + 5 && WordAt(s, i, "fixes"))
      || (k == i + 5 && WordAt(s, i, "close")) || (k == i + 6 && WordAt(s, i, "closes"))
      || (k == i + 7 && WordAt(s, i, "resolve")) || (k == i + 8 && WordAt(s, i, "resolves"))
  {
    LoweredIs(s, i, k, "fixe");
    LoweredIs(s, i, k, "fixes");
    LoweredIs(s, i, k, "close");
    LoweredIs(s, i, k, "closes");
    LoweredIs(s, i, k, "resolve");
    LoweredIs(s, i, k, "resolves");
  }

  /** `s[i..k]` lowered is `word` exactly when `word` is found at `i` and ends at `k`. */
  lemma LoweredIs(s: string, i: nat, k: nat, word: string)
    requires forall n :: 0 <= n < |word| ==> !('A' <= word[n] <= 'Z')
    ensures (i <= k <= |s| && Lowered(s[i..k]) == word) <==> (k == i + |word| && WordAt(s, i, word))
  {
    WordAtLowered(s, i, word);
  }

  /** The six keywords are the three stems, each with an optional `s`. */
  lemma ClosingWordByStem(s: string, i: nat, k: nat)
    ensures ClosingWord(s, i, k) <==>
      || (WordAt(s, i, "fixe") && (k == i + 4 || (k == i + 5 && i + 4 < |s| && SameLetter(s[i + 4], 's'))))
      || (WordAt(s, i, "close") && (k == i + 5 || (k == i + 6 && i + 5 < |s| && SameLetter(s[i + 5], 's'))))
      || (WordAt(s, i, "resolve") && (k == i + 7 || (k == i + 8 && i + 7 < |s| && SameLetter(s[i + 7], 's'))))
  {
    assert "fixe" + "s" == "fixes" && "close" + "s" == "closes" && "resolve" + "s" == "resolves";
    ClosingWordSpelled(s, i, k);
    StemOrPlural(s, i, "fixe", k);
    StemOrPlural(s, i, "close", k);
    StemOrPlural(s, i, "resolve", k);
  }

  /**
   * Each matcher agrees with its regular expression: what it finds at `i` is a match
   * of the expression there, and whenever the expression matches `s[i..j]`, the
   * matcher finds exactly that text (so `None` means nothing matches at `i`).
   */
  lemma MatchAtIsRegexMatch(p: Pattern, s: string, i: nat)
    requires i <= |s|
    ensures MatchAt(p, s, i).Some? ==> MatchSpan(p, s, i, MatchAt(p, s, i).value)
    ensures forall j: nat :: MatchSpan(p, s, i, j) ==> MatchAt(p, s, i) == Some(j)
  {
    match p
    case GitHubIssue =>
      if i < |s| { NonEmptyRunIsLongestRun(s, i + 1, Digit); }
    case AzureBoards =>
      if i + 2 < |s| { NonEmptyRunIsLongestRun(s, i + 3, Digit); }
    case GitLabMergeRequest =>
      if i < |s| { NonEmptyRunIsLongestRun(s, i + 1, Digit); }
    case JiraTicket =>
      TicketMatchAt(s, i);
    case ClosingKeyword =>
      KeywordMatchAt(s, i);
  }

  lemma TicketMatchAt(s: string, i: nat)
    requires i <= |s|
    ensures MatchAt(JiraTicket, s, i).Some? ==> MatchSpan(JiraTicket, s, i, MatchAt(JiraTicket, s, i).value)
    ensures forall j: nat :: MatchSpan(JiraTicket, s, i, j) ==> MatchAt(JiraTicket, s, i) == Some(j)
  {
    NonEmptyRunIsLongestRun(s, i, Upper);
    var r := MatchAt(JiraTicket, s, i);
    var up := NonEmptyRun(s, i, Upper);
    if up.Some? && up.value < |s| {
      NonEmptyRunIsLongestRun(s, up.value + 1, Digit);
    }
    if r.Some? {
      assert Run(s, i, up.value, Upper);
    }
    forall j: nat | MatchSpan(JiraTicket, s, i, j)
      ensures r == Some(j)
    {
      var k: nat :| Run(s, i, k, Upper) && k < |s| && s[k] == '-' && LongestRun(s, k + 1, j, Digit);
      assert LongestRun(s, i, k, Upper);
      NonEmptyRunIsLongestRun(s, k + 1, Digit);
    }
  }

  lemma KeywordMatchAt(s: string, i: nat)
    requires i <= |s|
    ensures MatchAt(ClosingKeyword, s, i).Some? ==> MatchSpan(ClosingKeyword, s, i, MatchAt(ClosingKeyword, s, i).value)
    ensures forall j: nat :: MatchSpan(ClosingKeyword, s, i, j) ==> MatchAt(ClosingKeyword, s, i) == Some(j)
  {
    KeywordMatchAtSound(s, i);
    forall j: nat | MatchSpan(ClosingKeyword, s, i, j)
      ensures MatchAt(ClosingKeyword, s, i) == Some(j)
    {
      KeywordMatchAtComplete(s, i, j);
    }
  }

  lemma KeywordMatchAtSound(s: string, i: nat)
    requires i <= |s|
    ensures MatchAt(ClosingKeyword, s, i).Some? ==> MatchSpan(ClosingKeyword, s, i, MatchAt(ClosingKeyword, s, i).value)
  {
    var r := MatchAt(ClosingKeyword, s, i);
    var kw := KeywordEnd(s, i);
    if r.Some? {
      KeywordEndIsClosingWord(s, i);
      NonEmptyRunIsLongestRun(s, kw.value, Space);
      var sp := NonEmptyRun(s, kw.value, Space);
      NonEmptyRunIsLongestRun(s, sp.value + 1, Digit);
      assert ClosingWord(s, i, kw.value) && Run(s, kw.value, sp.value, Space);
    }
  }

  lemma KeywordMatchAtComplete(s: string, i: nat, j: nat)
    requires i <= |s| && MatchSpan(ClosingKeyword, s, i, j)
    ensures MatchAt(ClosingKeyword, s, i) == Some(j)
  {
    var k, m := KeywordSpanSteps(s, i, j);
    KeywordBeforeSpace(s, i, k);
    KeywordMatchAtSteps(s, i, k, m, j);
  }

  /** A keyword match, taken apart into the three steps of the keyword matcher. */
  lemma KeywordSpanSteps(s: string, i: nat, j: nat) returns (k: nat, m: nat)
    requires i <= |s| && MatchSpan(ClosingKeyword, s, i, j)
    ensures ClosingWord(s, i, k) && k <= m < |s| && InClass(s[k], Space) && NonEmptyRun(s, k, Space) == Some(m)
    ensures s[m] == '#' && NonEmptyRun(s, m + 1, Digit) == Some(j)
  {
    k, m :| ClosingWord(s, i, k) && Run(s, k, m, Space) && m < |s| && s[m] == '#'
      && LongestRun(s, m + 1, j, Digit);
    LongestRunIsNonEmptyRun(s, m + 1, j, Digit);
    SpacesThenHash(s, k, m);
  }

  /** White space that runs up to a `#` is all that a greedy `\s+` takes. */
  lemma SpacesThenHash(s: string, k: nat, m: nat)
    requires Run(s, k, m, Space) && m < |s| && s[m] == '#'
    ensures k < |s| && InClass(s[k], Space) && NonEmptyRun(s, k, Space) == Some(m)
  {
    LongestRunIsNonEmptyRun(s, k, m, Space);
  }

  /** The keyword matcher's three steps, each found. */
  lemma KeywordMatchAtSteps(s: string, i: nat, k: nat, m: nat, j: nat)
    requires i <= k <= m < |s| && KeywordEnd(s, i) == Some(k) && NonEmptyRun(s, k, Space) == Some(m)
    requires s[m] == '#' && NonEmptyRun(s, m + 1, Digit) == Some(j)
    ensures MatchAt(ClosingKeyword, s, i) == Some(j)
  {
  }

  /** A keyword followed by white space is the one `KeywordEnd` finds. */
  lemma KeywordBeforeSpace(s: string, i: nat, k: nat)
    requires ClosingWord(s, i, k) && k < |s| && InClass(s[k], Space)
    ensures i <= |s| && KeywordEnd(s, i) == Some(k)
  {
    assert i <= k;
    KeywordEndIsClosingWord(s, i);
  }

  /**
   * The scan is complete: a match of `p` at `a` that no earlier match runs into
   * is among the scan's results from any position up to `a`.
   */
  lemma {:induction false} MatchesFromComplete(p: Pattern, s: string, i: nat, a: nat, j: nat)
    requires i <= a <= |s| && MatchSpan(p, s, a, j)
    requires forall b: nat, e: nat :: b < a && MatchSpan(p, s, b, e) ==> e <= a
    ensures s[a..j] in MatchesFrom(p, s, i)
    decreases a - i
  {
    MatchAtIsRegexMatch(p, s, i);
    MatchAtIsRegexMatch(p, s, a);
    var m := MatchAt(p, s, i);
    if i == a {
      assert MatchesFrom(p, s, i) == [s[a..j]] + MatchesFrom(p, s, j);
    } else if m.Some? {
      assert MatchesFrom(p, s, i) == [s[i..m.value]] + MatchesFrom(p, s, m.value);
      MatchesFromComplete(p, s, m.value, a, j);
    } else {
      MatchesFromComplete(p, s, i + 1, a, j);
    }
  }

  /** Each pattern's matches are among the references. */
  lemma MatchIsReference(p: Pattern, s: string, r: string)
    requires r in Matches(p, s)
    ensures r in ReferencesIn(s)
  {
    AllMatchesInPatternOrder(s);
    var all := AllMatches(s);
    assert r in all by {
      match p
      case GitHubIssue =>
      case AzureBoards =>
      case GitLabMergeRequest =>
      case JiraTicket =>
      case ClosingKeyword =>
    }
    var k :| 0 <= k < |all| && all[k] == r;
  }

  /** Every `#` followed by digits yields a reference: `#` and all the digits after it. */
  lemma HashReferenceFound(s: string, a: nat)
    requires a + 1 < |s| && s[a] == '#' && InClass(s[a + 1], Digit)
    ensures s[a..RunEnd(s, a + 1, Digit)] in ReferencesIn(s)
  {
    var j := RunEnd(s, a + 1, Digit);
    assert MatchSpan(GitHubIssue, s, a, j);
    forall b: nat, e: nat | b < a && MatchSpan(GitHubIssue, s, b, e)
      ensures e <= a
    {
      // a run of digits cannot cover the marker at `a`
      assert !InClass(s[a], Digit);
    }
    MatchesFromComplete(GitHubIssue, s, 0, a, j);
    MatchIsReference(GitHubIssue, s, s[a..j]);
  }

  /** Every `!` followed by digits yields a reference: `!` and all the digits after it. */
  lemma MergeRequestReferenceFound(s: string, a: nat)
    requires a + 1 < |s| && s[a] == '!' && InClass(s[a + 1], Digit)
    ensures s[a..RunEnd(s, a + 1, Digit)] in ReferencesIn(s)
  {
    var j := RunEnd(s, a + 1, Digit);
    assert MatchSpan(GitLabMergeRequest, s, a, j);
    forall b: nat, e: nat | b < a && MatchSpan(GitLabMergeRequest, s, b, e)
      ensures e <= a
    {
      // a run of digits cannot cover the marker at `a`
      assert !InClass(s[a], Digit);
    }
    MatchesFromComplete(GitLabMergeRequest, s, 0, a, j);
    MatchIsReference(GitLabMergeRequest, s, s[a..j]);
  }

  /**
   * Every ticket key, a run of capitals that starts a word of capitals, then `-`
   * and digits, yields a reference.
   */
  lemma TicketReferenceFound(s: string, a: nat, k: nat)
    requires a < k && k + 1 < |s| && (a == 0 || !InClass(s[a - 1], Upper))
    requires forall t :: a <= t < k ==> InClass(s[t], Upper)
    requires s[k] == '-' && InClass(s[k + 1], Digit)
    ensures s[a..RunEnd(s, k + 1, Digit)] in ReferencesIn(s)
  {
    var j := RunEnd(s, k + 1, Digit);
    assert Run(s, a, k, Upper);
    assert MatchSpan(JiraTicket, s, a, j);
    forall b: nat, e: nat | b < a && MatchSpan(JiraTicket, s, b, e)
      ensures e <= a
    {
      var c: nat :| Run(s, b, c, Upper) && c < |s| && s[c] == '-' && LongestRun(s, c + 1, e, Digit);
      // `a` is neither inside the capitals, nor the dash, nor among the digits
      assert !InClass(s[a], Digit) && s[a] != '-';
    }
    MatchesFromComplete(JiraTicket, s, 0, a, j);
    MatchIsReference(JiraTicket, s, s[a..j]);
  }

  // Worked examples. Each step takes the message as a parameter whose characters
  // are given one by one, so that the verifier follows the given steps instead of
  // evaluating the matchers on a string literal outright.

  /** `s` is the message "fixes #12, see #12", spelled out character by character. */
  predicate IsFixesMessage(s: string) {
    && |s| == 18
    && s[0] == 'f' && s[1] == 'i' && s[2] == 'x' && s[3] == 'e' && s[4] == 's' && s[5] == ' '
      && s[6] == '#' && s[7] == '1' && s[8] == '2' && s[9] == ',' && s[10] == ' ' && s[11] == 's'
      && s[12] == 'e' && s[13] == 'e' && s[14] == ' ' && s[15] == '#' && s[16] == '1' && s[17] == '2'
  }

  /** `s` is the message "AB#5", spelled out character by character. */
  predicate IsAzureMessage(s: string) {
    && |s| == 4
    && s[0] == 'A' && s[1] == 'B' && s[2] == '#' && s[3] == '5'
  }

  /** `s` is the message "fix #7", spelled out character by character. */
  predicate IsFixMessage(s: string) {
    && |s| == 6
    && s[0] == 'f' && s[1] == 'i' && s[2] == 'x' && s[3] == ' ' && s[4] == '#' && s[5] == '7'
  }


  lemma FixesExamplePlainFirst(s: string)
    requires IsFixesMessage(s)
    ensures MatchesFrom(GitHubIssue, s, 0) == MatchesFrom(GitHubIssue, s, 6)
  {
    SkipStretch(GitHubIssue, s, 0, 6);
  }

  lemma FixesExamplePlainSecond(s: string)
    requires IsFixesMessage(s)
    ensures MatchesFrom(GitHubIssue, s, 9) == MatchesFrom(GitHubIssue, s, 15)
  {
    SkipStretch(GitHubIssue, s, 9, 15);
  }

  lemma FixesExamplePlain(s: string)
    requires IsFixesMessage(s)
    ensures Matches(GitHubIssue, s) == ["#12", "#12"]
  {
    FixesExamplePlainFirst(s);
    FixesExamplePlainSecond(s);
    assert MatchAt(GitHubIssue, s, 6) == Some(9);
    TakeMatch(GitHubIssue, s, 6, 9);
    assert MatchAt(GitHubIssue, s, 15) == Some(18);
    TakeMatch(GitHubIssue, s, 15, 18);
    assert s[6..9] == s[15..18] == "#12";
  }

  lemma FixesExampleNoAzure(s: string)
    requires IsFixesMessage(s)
    ensures Matches(AzureBoards, s) == []
  {
    SkipStretch(AzureBoards, s, 0, 9);
    SkipStretch(AzureBoards, s, 9, 18);
  }

  lemma FixesExampleNoGitLab(s: string)
    requires IsFixesMessage(s)
    ensures Matches(GitLabMergeRequest, s) == []
  {
    SkipStretch(GitLabMergeRequest, s, 0, 9);
    SkipStretch(GitLabMergeRequest, s, 9, 18);
  }

  lemma FixesExampleNoJira(s: string)
    requires IsFixesMessage(s)
    ensures Matches(JiraTicket, s) == []
  {
    SkipStretch(JiraTicket, s, 0, 9);
    SkipStretch(JiraTicket, s, 9, 18);
  }

  lemma FixesExampleKeywordAtStart(s: string)
    requires IsFixesMessage(s)
    ensures MatchAt(ClosingKeyword, s, 0) == Some(9)
  {
    assert WordAt(s, 0, "fixe");
    assert KeywordEnd(s, 0) == Some(5);
    assert RunEnd(s, 6, Space) == 6 && RunEnd(s, 5, Space) == 6;
    assert NonEmptyRun(s, 5, Space) == Some(6);
    assert RunEnd(s, 9, Digit) == 9 && RunEnd(s, 8, Digit) == 9 && RunEnd(s, 7, Digit) == 9;
    assert NonEmptyRun(s, 7, Digit) == Some(9);
  }

  lemma FixesExampleKeywordRest(s: string)
    requires IsFixesMessage(s)
    ensures MatchesFrom(ClosingKeyword, s, 9) == []
  {
    SkipStretch(ClosingKeyword, s, 9, 18);
  }

  lemma FixesExampleKeyword(s: string)
    requires IsFixesMessage(s)
    ensures Matches(ClosingKeyword, s) == ["fixes #12"]
  {
    FixesExampleKeywordAtStart(s);
    TakeMatch(ClosingKeyword, s, 0, 9);
    FixesExampleKeywordRest(s);
    assert s[0..9] == "fixes #12";
  }

  lemma FixesExampleAll(s: string)
    requires IsFixesMessage(s)
    ensures AllMatches(s) == ["#12", "#12", "fixes #12"]
  {
    FixesExamplePlain(s);
    FixesExampleNoAzure(s);
    FixesExampleNoGitLab(s);
    FixesExampleNoJira(s);
    FixesExampleKeyword(s);
    AllMatchesInPatternOrder(s);
  }

  lemma FixesExampleOf(s: string)
    requires IsFixesMessage(s)
    ensures ReferencesIn(s) == ["#12", "fixes #12"]
  {
    FixesExampleAll(s);
    var all := ["#12", "#12", "fixes #12"];
    assert all[..2] == ["#12", "#12"] && all[..2][..1] == ["#12"] && all[..2][..1][..0] == [];
    assert Dedup(all[..2][..1]) == ["#12"];
    assert Dedup(all[..2]) == ["#12"];
    assert "fixes #12" != "#12";
  }

  /**
   * "fixes #12, see #12": the plain `#` pattern finds "#12" twice and the keyword
   * pattern finds "fixes #12"; the repeat is dropped.
   */
  lemma FixesExample()
    ensures ReferencesIn("fixes #12, see #12") == ["#12", "fixes #12"]
  {
    FixesExampleOf("fixes #12, see #12");
  }

  lemma AzureBoardsMatches(s: string)
    requires IsAzureMessage(s)
    ensures Matches(GitHubIssue, s) == ["#5"]
    ensures Matches(AzureBoards, s) == ["AB#5"]
  {
    assert RunEnd(s, 4, Digit) == 4 && RunEnd(s, 3, Digit) == 4;
    assert s[2..4] == "#5" && s[0..4] == "AB#5";
    SkipStretch(GitHubIssue, s, 0, 2);
    assert MatchAt(GitHubIssue, s, 2) == Some(4);
    TakeMatch(GitHubIssue, s, 2, 4);
    assert MatchAt(AzureBoards, s, 0) == Some(4);
    TakeMatch(AzureBoards, s, 0, 4);
  }

  lemma AzureBoardsNoOthers(s: string)
    requires IsAzureMessage(s)
    ensures Matches(GitLabMergeRequest, s) == []
    ensures Matches(JiraTicket, s) == []
    ensures Matches(ClosingKeyword, s) == []
  {
    SkipStretch(GitLabMergeRequest, s, 0, 4);
    SkipStretch(ClosingKeyword, s, 0, 4);
    assert RunEnd(s, 2, Upper) == 2 && RunEnd(s, 1, Upper) == 2 && RunEnd(s, 0, Upper) == 2;
    assert MatchAt(JiraTicket, s, 0).None? && MatchAt(JiraTicket, s, 1).None?;
    assert MatchesFrom(JiraTicket, s, 0) == MatchesFrom(JiraTicket, s, 1) == MatchesFrom(JiraTicket, s, 2);
    SkipStretch(JiraTicket, s, 2, 4);
  }

  lemma AzureBoardsExampleOf(s: string)
    requires IsAzureMessage(s)
    ensures ReferencesIn(s) == ["#5", "AB#5"]
  {
    AzureBoardsMatches(s);
    AzureBoardsNoOthers(s);
    AllMatchesInPatternOrder(s);
    var all := AllMatches(s);
    assert all == ["#5"] + ["AB#5"] + [] + [] + [];
    assert all == ["#5", "AB#5"];
    assert all[..1] == ["#5"] && all[..1][..0] == [];
    assert Dedup(all[..1]) == ["#5"];
    assert "AB#5" != "#5";
  }

  /** "AB#5": the plain `#` pattern finds "#5" inside the Azure Boards reference. */
  lemma AzureBoardsExample()
    ensures ReferencesIn("AB#5") == ["#5", "AB#5"]
  {
    AzureBoardsExampleOf("AB#5");
  }

  lemma FixWithoutEsPlain(s: string)
    requires IsFixMessage(s)
    ensures Matches(GitHubIssue, s) == ["#7"]
  {
    SkipStretch(GitHubIssue, s, 0, 4);
    assert MatchAt(GitHubIssue, s, 4) == Some(6);
    TakeMatch(GitHubIssue, s, 4, 6);
    assert s[4..6] == "#7";
  }

  lemma FixWithoutEsNoOthers(s: string)
    requires IsFixMessage(s)
    ensures Matches(AzureBoards, s) == []
    ensures Matches(GitLabMergeRequest, s) == []
    ensures Matches(JiraTicket, s) == []
  {
    SkipStretch(AzureBoards, s, 0, 6);
    SkipStretch(GitLabMergeRequest, s, 0, 6);
    SkipStretch(JiraTicket, s, 0, 6);
  }

  lemma FixWithoutEsNoKeyword(s: string)
    requires IsFixMessage(s)
    ensures Matches(ClosingKeyword, s) == []
  {
    assert !WordAt(s, 0, "fixe");
    assert MatchAt(ClosingKeyword, s, 0).None?;
    SkipStretch(ClosingKeyword, s, 1, 6);
  }

  lemma FixWithoutEsExampleOf(s: string)
    requires IsFixMessage(s)
    ensures ReferencesIn(s) == ["#7"]
  {
    FixWithoutEsPlain(s);
    FixWithoutEsNoOthers(s);
    FixWithoutEsNoKeyword(s);
    AllMatchesInPatternOrder(s);
    var all := AllMatches(s);
    assert all == ["#7"] + [] + [] + [] + [];
    assert all == ["#7"];
    assert all[..0] == [];
    assert Dedup(all) == Dedup(all[..0]) + ["#7"];
  }

  /** `fixes?` needs "fixe": "fix #7" is found only by the plain `#` pattern. */
  lemma FixWithoutEsExample()
    ensures ReferencesIn("fix #7") == ["#7"]
  {
    FixWithoutEsExampleOf("fix #7");
  }
}
