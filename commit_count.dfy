/**
 * The decision logic of `fetch_commits_count`: ask for the commit list one
 * commit per page and read the total from the page number of the
 * `rel="last"` link in the Link response header (RFC 8288, section 3), or
 * else count a second page of up to 100 commits. The two HTTP exchanges are
 * inputs; the result keeps the source's sentinel contract: 0 for a missing
 * repository or no commits, a count when one is known, -1 when the count
 * could not be determined this time.
 */
module CommitCount {
  import opened Wrappers
  import opened PyStr
  import opened RepoUrl
  import opened Json

  /** Results of `fetch_commits_count`: a count, or the sentinel -1. */
  type Count = c: int | c >= -1

  /** The first request (`per_page=1`): raised, or a status and the Link header ('' when absent). */
  datatype FirstReply = FirstRaised | FirstReplied(status: int, link: string)

  /** What `resp2.json()` yields: a list of that many commits, another JSON value, or an error. */
  datatype Body = JsonList(length: nat) | JsonOther | NotJson

  /** The second request (`per_page=100`). */
  datatype SecondReply = SecondRaised | SecondReplied(status: int, body: Body)

  const LastRel := "rel=\"last\""
  const PagePrefix := "page="
  const LinkTail := ">; rel=\"last\""

  /** Python's `sub in s` for strings. */
  predicate Contains(s: string, sub: string) {
    exists i :: 0 <= i <= |s| && StartsWith(s[i..], sub)
  }

  /** End of the run of decimal digits that starts at `j`. */
  function DigitEnd(s: string, j: nat): (k: nat)
    requires j <= |s|
    ensures j <= k <= |s|
    ensures forall m :: j <= m < k ==> IsDigit(s[m])
    ensures k < |s| ==> !IsDigit(s[k])
    decreases |s| - j
  {
    if j < |s| && IsDigit(s[j]) then DigitEnd(s, j + 1) else j
  }

  /** The pattern `page=(\d+)>; rel="last"` matches at position `i`. */
  predicate MatchAt(s: string, i: nat)
    requires i <= |s|
  {
    StartsWith(s[i..], PagePrefix)
    && var k := DigitEnd(s, i + 5);
    k > i + 5 && StartsWith(s[k..], LinkTail)
  }

  /** `re.search(r'page=(\d+)>; rel="last"', s)` from position `i`: the digits
      `match.group(1)` captures at the leftmost match, if any. */
  function LastPage(s: string, i: nat): (r: Option<string>)
    requires i <= |s|
    ensures r.Some? ==> r.value != [] && forall j :: 0 <= j < |r.value| ==> IsDigit(r.value[j])
    decreases |s| - i
  {
    if i == |s| then None
    else if MatchAt(s, i) then Some(s[i + 5..DigitEnd(s, i + 5)])
    else LastPage(s, i + 1)
  }

  /** `int(match.group(1))` with its ValueError caught as -1: the captured page
      number, or -1 when it has more digits than `int()` converts. */
  function PageCount(digits: string): (r: Count)
    requires forall j :: 0 <= j < |digits| ==> IsDigit(digits[j])
  {
    if |digits| > MaxStrDigits then -1 else DigitsValue(digits)
  }

  /** `PageCount` is Python's `int()` of the captured digits, -1 standing for its ValueError. */
  lemma PageCountIsInt(digits: string)
    requires digits != [] && forall j :: 0 <= j < |digits| ==> IsDigit(digits[j])
    ensures ParseInt(digits).None? <==> PageCount(digits) == -1
    ensures ParseInt(digits).Some? ==> ParseInt(digits).value == PageCount(digits)
  {
    ParseIntOfDigits(digits);
  }

  /** `fetch_commits_count(repo_url)`, where `path` is the path of `repo_url`. */
  function FetchCommitsCount(path: string, first: FirstReply, second: SecondReply): (r: Count)
  {
    match RepoOwnerAndName(path)
    case None => 0
    case Some((owner, repo)) =>
      if owner == "" || repo == "" then 0
      else match first
        case FirstRaised => -1
        case FirstReplied(status, link) =>
          if status == 404 then 0
          else if status != 200 then -1
          else if Contains(link, LastRel) && LastPage(link, 0).Some? then PageCount(LastPage(link, 0).value)
          else match second
            case SecondRaised => -1
            case SecondReplied(status2, body) =>
              if status2 != 200 then 0
              else match body
                case JsonList(n) => n
                case JsonOther => 0
                case NotJson => -1
  }

  /** The repository path names a repository (`owner` and `repo` both non-empty). */
  predicate WellFormed(path: string) {
    RepoOwnerAndName(path).Some? && RepoOwnerAndName(path).value.0 != "" && RepoOwnerAndName(path).value.1 != ""
  }

  /** -1 means "unknown, retry": exactly an exception or an unexpected status
      (neither 200 nor 404) on the way to a count, the ValueError of `int()` on a
      last-page number of more than 4300 digits among the exceptions. A malformed
      path and a 404 both give 0, never -1. */
  lemma SentinelExactlyOnFailure(path: string, first: FirstReply, second: SecondReply)
    ensures !WellFormed(path) ==> FetchCommitsCount(path, first, second) == 0
    ensures WellFormed(path) && first.FirstReplied? && first.status == 404 ==> FetchCommitsCount(path, first, second) == 0
    ensures WellFormed(path) ==>
      (FetchCommitsCount(path, first, second) == -1 <==>
        || first.FirstRaised?
        || (first.status != 200 && first.status != 404)
        || (first.status == 200 && Contains(first.link, LastRel) && LastPage(first.link, 0).Some?
            && |LastPage(first.link, 0).value| > MaxStrDigits)
        || (first.status == 200 && !(Contains(first.link, LastRel) && LastPage(first.link, 0).Some?)
            && (second.SecondRaised? || (second.status == 200 && second.body.NotJson?))))
  {
  }

  /** With no last-page link, the count is the length of the second 200 list, else 0 (or -1 on error). */
  lemma CountFromSecondPage(path: string, link: string, n: nat)
    requires WellFormed(path) && !Contains(link, LastRel)
    ensures FetchCommitsCount(path, FirstReplied(200, link), SecondReplied(200, JsonList(n))) == n
    ensures forall status2 :: status2 != 200 ==>
      FetchCommitsCount(path, FirstReplied(200, link), SecondReplied(status2, JsonList(n))) == 0
  {
  }

  /** No match of the pattern can start before a `page=` when the text in front
      of it holds no `rel="last"`: a match would have to end with `>; rel="last"`
      inside that text, and `page=` cannot continue a digit run, a `page=` or a
      `>; rel="last"` that started earlier. */
  lemma NoMatchBefore(s: string, p: nat, i: nat)
    requires p + 5 <= |s| && StartsWith(s[p..], PagePrefix)
    requires !Contains(s[..p], LastRel)
    requires i < p
    ensures !MatchAt(s, i)
  {
    assert s[p..][..5] == PagePrefix;
    assert s[p] == s[p..][0] == 'p';
    if i + 5 > p {
      assert s[i..][p - i] == s[p];
      assert !StartsWith(s[i..], PagePrefix);
    } else {
      var k := DigitEnd(s, i + 5);
      assert k <= p;
      if k + |LinkTail| <= p {
        assert !StartsWith(s[..p][k + 3..], LastRel);
        LinkTailHoldsLastRel(s, k, p);
      } else {
        assert s[k..][p - k] == s[p];
        assert forall j :: 0 <= j < |LinkTail| ==> LinkTail[j] != 'p';
        assert !StartsWith(s[k..], LinkTail);
      }
    }
  }

  /** A `>; rel="last"` that ends by `p` puts a `rel="last"` before `p`. */
  lemma LinkTailHoldsLastRel(s: string, k: nat, p: nat)
    requires k + |LinkTail| <= p <= |s|
    ensures StartsWith(s[k..], LinkTail) ==> StartsWith(s[..p][k + 3..], LastRel)
  {
    if StartsWith(s[k..], LinkTail) {
      forall j | 0 <= j < |LastRel| ensures s[..p][k + 3..][j] == LastRel[j] {
        assert s[..p][k + 3..][j] == s[k + 3 + j] == s[k..][3 + j] == LinkTail[3 + j];
      }
    }
  }

  /** Scanning skips positions where nothing matches. */
  lemma {:induction false} LastPageSkips(s: string, i: nat, j: nat)
    requires i <= j <= |s|
    requires forall m :: i <= m < j ==> !MatchAt(s, m)
    ensures LastPage(s, i) == LastPage(s, j)
    decreases j - i
  {
    if i < j {
      LastPageSkips(s, i + 1, j);
    }
  }

  /** At the link target the pattern matches and captures exactly the digits. */
  lemma MatchAtTarget(s: string, p: nat, digits: string)
    requires digits != [] && forall j :: 0 <= j < |digits| ==> IsDigit(digits[j])
    requires p <= |s| && StartsWith(s[p..], PagePrefix + digits + LinkTail)
    ensures MatchAt(s, p) && s[p + 5..DigitEnd(s, p + 5)] == digits
  {
    var k := p + 5 + |digits|;
    TargetDigits(s, p, digits);
    TargetFrame(s, p, digits);
    DigitEndOf(s, p + 5, k);
  }

  /** At the link target, the digits run from `p + 5` up to a `>`. */
  lemma TargetDigits(s: string, p: nat, digits: string)
    requires digits != [] && forall j :: 0 <= j < |digits| ==> IsDigit(digits[j])
    requires p <= |s| && StartsWith(s[p..], PagePrefix + digits + LinkTail)
    ensures p + 5 + |digits| < |s|
    ensures forall m :: p + 5 <= m < p + 5 + |digits| ==> IsDigit(s[m])
    ensures !IsDigit(s[p + 5 + |digits|])
    ensures s[p + 5..p + 5 + |digits|] == digits
  {
    var k := p + 5 + |digits|;
    var w := PagePrefix + digits + LinkTail;
    assert s[p..p + |w|] == w;
    forall m | p + 5 <= m < k ensures IsDigit(s[m]) {
      assert s[m] == w[m - p] == digits[m - p - 5];
    }
    assert s[k] == w[k - p] == '>';
    assert w[5..5 + |digits|] == digits;
    assert s[p + 5..k] == s[p..p + |w|][5..5 + |digits|];
  }

  /** At the link target, `page=` comes before the digits and `>; rel="last"` after them. */
  lemma TargetFrame(s: string, p: nat, digits: string)
    requires p <= |s| && StartsWith(s[p..], PagePrefix + digits + LinkTail)
    ensures StartsWith(s[p..], PagePrefix)
    ensures StartsWith(s[p + 5 + |digits|..], LinkTail)
  {
    var k := p + 5 + |digits|;
    var w := PagePrefix + digits + LinkTail;
    assert s[p..][..5] == w[..5] == PagePrefix;
    assert s[k..][..|LinkTail|] == s[p..][..|w|][5 + |digits|..] == w[5 + |digits|..] == LinkTail;
  }

  /** The leftmost `page=D>; rel="last"` is the one found. */
  lemma LastPageAtTarget(s: string, p: nat, digits: string)
    requires digits != [] && forall j :: 0 <= j < |digits| ==> IsDigit(digits[j])
    requires p <= |s| && StartsWith(s[p..], PagePrefix + digits + LinkTail)
    requires forall m :: 0 <= m < p ==> !MatchAt(s, m)
    ensures LastPage(s, 0) == Some(digits)
  {
    LastPageSkips(s, 0, p);
    MatchAtTarget(s, p, digits);
  }

  /** A match of the pattern contains `rel="last"`. */
  lemma MatchContainsLastRel(s: string, i: nat)
    requires i <= |s| && MatchAt(s, i)
    ensures Contains(s, LastRel)
  {
    var k := DigitEnd(s, i + 5);
    assert s[k..][..|LinkTail|] == LinkTail;
    assert s[k + 3..][..|LastRel|] == LinkTail[3..] == LastRel;
  }

  /** A GitHub Link header whose `rel="last"` target ends in `page=N` yields the
      digits of N, provided no `rel="last"` occurs before that link target; the
      `rel="next"` link GitHub puts first is allowed. */
  lemma LastPageOfLinkHeader(prefix: string, n: nat, rest: string)
    requires !Contains(prefix, LastRel)
    ensures var link := prefix + PagePrefix + NatToString(n) + LinkTail + rest;
      LastPage(link, 0) == Some(NatToString(n)) && Contains(link, LastRel)
  {
    var digits := NatToString(n);
    var w := PagePrefix + digits + LinkTail;
    var link := prefix + PagePrefix + digits + LinkTail + rest;
    assert link == prefix + w + rest;
    var p := |prefix|;
    assert link[p..][..|w|] == w;
    assert link[p..][..5] == w[..5] == PagePrefix;
    assert link[..p] == prefix;
    forall m | 0 <= m < p ensures !MatchAt(link, m) {
      NoMatchBefore(link, p, m);
    }
    LastPageAtTarget(link, p, digits);
    MatchAtTarget(link, p, digits);
    MatchContainsLastRel(link, p);
  }

  /** A 200 reply with such a Link header gives the commit count N, read back from
      its decimal digits, when N has at most 4300 digits, and -1 otherwise. */
  lemma CountOfLinkHeader(path: string, prefix: string, n: nat, rest: string, second: SecondReply)
    requires WellFormed(path) && !Contains(prefix, LastRel)
    ensures var link := prefix + PagePrefix + NatToString(n) + LinkTail + rest;
      FetchCommitsCount(path, FirstReplied(200, link), second) == (if |NatToString(n)| <= MaxStrDigits then n else -1)
  {
    LastPageOfLinkHeader(prefix, n, rest);
    DigitsOfNatToString(n);
  }

  /** GitHub's usual header, a `rel="next"` link before the `rel="last"` one, yields the last page. */
  lemma NextThenLastHeader(path: string, n: nat, second: SecondReply)
    requires WellFormed(path) && |NatToString(n)| <= MaxStrDigits
    ensures var link := "<c?page=2>; rel=\"next\", <c?" + PagePrefix + NatToString(n) + LinkTail;
      LastPage(link, 0) == Some(NatToString(n)) && FetchCommitsCount(path, FirstReplied(200, link), second) == n
  {
    var prefix := "<c?page=2>; rel=\"next\", <c?";
    NextLinkLacksLastRel();
    LastPageOfLinkHeader(prefix, n, "");
    CountOfLinkHeader(path, prefix, n, "", second);
    assert prefix + PagePrefix + NatToString(n) + LinkTail + "" == prefix + PagePrefix + NatToString(n) + LinkTail;
  }

  /** A string lacking one of the characters of `sub` does not contain `sub`. */
  lemma LacksCharLacks(s: string, sub: string, j: nat)
    requires j < |sub| && sub[j] !in s
    ensures !Contains(s, sub)
  {
    forall i | 0 <= i <= |s| ensures !StartsWith(s[i..], sub) {
      if i + |sub| <= |s| {
        assert s[i..][j] == s[i + j];
      }
    }
  }

  /** The `rel="next"` link of `NextThenLastHeader` holds no `rel="last"`: it has no `s`. */
  lemma NextLinkLacksLastRel()
    ensures !Contains("<c?page=2>; rel=\"next\", <c?", LastRel)
  {
    assert LastRel[7] == 's';
    LacksCharLacks("<c?page=2>; rel=\"next\", <c?", LastRel, 7);
  }

  lemma {:induction false} DigitEndOf(s: string, j: nat, k: nat)
    requires j <= k < |s|
    requires forall m :: j <= m < k ==> IsDigit(s[m])
    requires !IsDigit(s[k])
    ensures DigitEnd(s, j) == k
    decreases k - j
  {
    if j < k {
      DigitEndOf(s, j + 1, k);
    }
  }
}
