/**
 * `parse_import_text`, identical in src/xueyuanzuoye/stu_homework.py and in
 * the root stu_homework.py: one `(name, repo)` entry per non-blank line of a
 * pasted list. A line is split at its first comma, else at its first tab,
 * else into whitespace-separated words; a missing name is taken from the
 * repository address. `urlPath` stands for `urlparse(url).path`.
 */
module ImportText {
  import opened Wrappers
  import opened PyStr
  import opened RepoUrl

  /** One parsed line. The source never leaves either field `None` here: an empty
      string is the only absent value that can come out. */
  datatype Entry = Entry(name: string, repo: string)

  /** `owner or repo_name or repo` for the pieces of `repo_owner_and_name(repo)`. */
  function NameFromRepo(repo: string, urlPath: string -> string): (name: string)
    ensures repo != [] ==> name != []
  {
    match RepoOwnerAndName(urlPath(repo))
    case Some((owner, repoName)) =>
      if owner != [] then owner else if repoName != [] then repoName else repo
    case None => repo
  }

  /** The first word of a stripped, non-blank line exists. */
  lemma FirstWord(line: string)
    requires line != [] && !IsSpace(line[0])
    ensures |Words(line)| >= 1
  {
    var n := RunLength(line, IsSpace);
    assert Words(line) == [line[..n]] + Fields(line[n..], IsSpace);
  }

  /** The first character of `Strip(s)` is not whitespace. */
  lemma StripStartsWithNonSpace(s: string)
    requires Strip(s) != []
    ensures !IsSpace(Strip(s)[0])
  {
    var l := LStrip(s);
    assert Strip(s) == RStrip(l) == l[..|RStrip(l)|];
  }

  /** The two sides of a line split at the first `sep`, each stripped. */
  function SplitOnce(line: string, sep: char): (r: (string, string))
    requires sep in line
  {
    var i := IndexOf(line, sep);
    (Strip(line[..i]), Strip(line[i + 1..]))
  }

  /** A line with neither separator: the first two words, or the only word as the address. */
  function SplitWords(line: string): (r: (string, string))
    requires line != [] && !IsSpace(line[0])
  {
    FirstWord(line);
    var parts := Words(line);
    if |parts| >= 2 then (parts[0], parts[1]) else ("", parts[0])
  }

  /** The name and address parts of a stripped line: split at the first comma, else at the
      first tab, else into words. */
  function SplitLine(line: string): (r: (string, string))
    requires line != [] && !IsSpace(line[0])
  {
    if ',' in line then SplitOnce(line, ',')
    else if '\t' in line then SplitOnce(line, '\t')
    else SplitWords(line)
  }

  /** One non-blank line (before stripping) of the pasted text. */
  function ParseLine(raw: string, urlPath: string -> string): (e: Entry)
    requires Strip(raw) != []
    ensures e.repo != [] ==> e.name != []
    ensures e.repo == [] ==> ',' in Strip(raw) || '\t' in Strip(raw)
  {
    StripStartsWithNonSpace(raw);
    var (name, repo) := SplitLine(Strip(raw));
    var repo' := if repo != [] then NormalizeRepoUrl(repo) else repo;
    var name' := if repo' != [] && name == [] then NameFromRepo(repo', urlPath) else name;
    Entry(name', repo')
  }

  /** The entries of the given lines: blank lines are skipped, every other line gives one entry. */
  function ParseLines(lines: seq<string>, urlPath: string -> string): seq<Entry> {
    if lines == [] then []
    else
      var last := lines[|lines| - 1];
      ParseLines(lines[..|lines| - 1], urlPath) + (if Strip(last) == [] then [] else [ParseLine(last, urlPath)])
  }

  /** Number of non-blank lines. */
  function NonBlank(lines: seq<string>): nat {
    if lines == [] then 0
    else NonBlank(lines[..|lines| - 1]) + (if Strip(lines[|lines| - 1]) == [] then 0 else 1)
  }

  /** `parse_import_text(text)`. */
  method ParseImportText(text: string, urlPath: string -> string) returns (entries: seq<Entry>)
    ensures entries == ParseLines(SplitLines(text), urlPath)
    ensures |entries| == NonBlank(SplitLines(text))
  {
    var lines := SplitLines(text);
    entries := [];
    for k := 0 to |lines|
      invariant entries == ParseLines(lines[..k], urlPath)
    {
      ParseLinesStep(lines, k, urlPath);
      var line := Strip(lines[k]);
      if line != [] {
        entries := entries + [ParseLine(lines[k], urlPath)];
      }
    }
    assert lines[..|lines|] == lines;
    ParseLinesCount(lines, urlPath);
  }

  /** One step of the loop of `ParseImportText`. */
  lemma ParseLinesStep(lines: seq<string>, k: nat, urlPath: string -> string)
    requires k < |lines|
    ensures ParseLines(lines[..k + 1], urlPath) ==
      ParseLines(lines[..k], urlPath) + (if Strip(lines[k]) == [] then [] else [ParseLine(lines[k], urlPath)])
  {
    assert lines[..k + 1][..k] == lines[..k];
    assert lines[..k + 1][k] == lines[k];
  }

  /** One entry per non-blank line. */
  lemma {:induction false} ParseLinesCount(lines: seq<string>, urlPath: string -> string)
    ensures |ParseLines(lines, urlPath)| == NonBlank(lines)
  {
    if lines != [] {
      ParseLinesCount(lines[..|lines| - 1], urlPath);
    }
  }

  /** A stripped string: non-empty, with no whitespace at either end. */
  predicate Trimmed(s: string) {
    s != [] && !IsSpace(s[0]) && !IsSpace(s[|s| - 1])
  }

  lemma StripTrimmed(s: string)
    requires Trimmed(s)
    ensures Strip(s) == s
  {
  }

  /** Stripping text surrounded only by spaces. */
  lemma StripPadded(pre: string, s: string, post: string)
    requires Trimmed(s)
    requires forall j :: 0 <= j < |pre| ==> IsSpace(pre[j])
    requires forall j :: 0 <= j < |post| ==> IsSpace(post[j])
    ensures Strip(pre + s + post) == s
  {
    var x := pre + s + post;
    assert x == pre + (s + post);
    assert (s + post)[0] == s[0];
    LStripSpaces(pre, s + post);
    assert LStrip(x) == s + post;
    RStripSpaces(s, post);
  }

  lemma {:induction false} LStripSpaces(pre: string, s: string)
    requires s != [] && !IsSpace(s[0])
    requires forall j :: 0 <= j < |pre| ==> IsSpace(pre[j])
    ensures LStrip(pre + s) == s
  {
    if pre != [] {
      assert (pre + s)[1..] == pre[1..] + s;
      LStripSpaces(pre[1..], s);
    }
  }

  lemma {:induction false} RStripSpaces(s: string, post: string)
    requires s != [] && !IsSpace(s[|s| - 1])
    requires forall j :: 0 <= j < |post| ==> IsSpace(post[j])
    ensures RStrip(s + post) == s
  {
    if post != [] {
      assert (s + post)[..|s + post| - 1] == s + post[..|post| - 1];
      RStripSpaces(s, post[..|post| - 1]);
    } else {
      assert s + post == s;
    }
  }

  /** `IndexOf` finds the first occurrence. */
  lemma {:induction false} IndexOfFirst(s: string, c: char, k: nat)
    requires k < |s| && s[k] == c
    requires forall j :: 0 <= j < k ==> s[j] != c
    ensures c in s && IndexOf(s, c) == k
  {
    if k > 0 {
      IndexOfFirst(s[1..], c, k - 1);
    }
  }

  /** A line `name<sep>repo` is split at the separator. */
  lemma SplitOnceAt(name: string, sep: char, repo: string)
    requires sep !in name && Trimmed(name) && Trimmed(repo)
    ensures sep in name + [sep] + repo
    ensures SplitOnce(name + [sep] + repo, sep) == (name, repo)
  {
    var line := name + [sep] + repo;
    forall j | 0 <= j < |name| ensures line[j] != sep {
      assert line[j] == name[j];
    }
    IndexOfFirst(line, sep, |name|);
    assert line[..|name|] == name;
    assert line[|name| + 1..] == repo;
    StripTrimmed(name);
    StripTrimmed(repo);
  }

  /** `name,repo` parses back to the two fields. */
  lemma CommaLine(name: string, repo: string, urlPath: string -> string)
    requires ',' !in name && Trimmed(name) && Trimmed(repo)
    ensures Strip(name + "," + repo) != []
    ensures ParseLine(name + "," + repo, urlPath) == Entry(name, repo)
  {
    var line := name + "," + repo;
    assert line[0] == name[0] && line[|line| - 1] == repo[|repo| - 1];
    StripTrimmed(line);
    SplitOnceAt(name, ',', repo);
    StripTrimmed(repo);
  }

  /** The comma wins over a tab: a tab inside the repository part stays in it. */
  lemma CommaBeforeTab(name: string, repo: string, urlPath: string -> string)
    requires ',' !in name && '\t' in repo && Trimmed(name) && Trimmed(repo)
    ensures Strip(name + "," + repo) != []
    ensures ParseLine(name + "," + repo, urlPath).repo == repo
  {
    CommaLine(name, repo, urlPath);
  }

  /** `name<TAB>repo` parses back to the two fields when the line has no comma. */
  lemma TabLine(name: string, repo: string, urlPath: string -> string)
    requires ',' !in name && ',' !in repo && '\t' !in name && Trimmed(name) && Trimmed(repo)
    ensures Strip(name + "\t" + repo) != []
    ensures ParseLine(name + "\t" + repo, urlPath) == Entry(name, repo)
  {
    var line := name + "\t" + repo;
    assert line[0] == name[0] && line[|line| - 1] == repo[|repo| - 1];
    StripTrimmed(line);
    assert ',' !in line by {
      forall j | 0 <= j < |line| ensures line[j] != ',' {
        if j < |name| { assert line[j] == name[j]; }
        else if j > |name| { assert line[j] == repo[j - |name| - 1]; }
      }
    }
    SplitOnceAt(name, '\t', repo);
    StripTrimmed(repo);
  }

  /** Neither a separator of the pasted list nor whitespace. */
  predicate Plain(s: string) {
    s != [] && forall j :: 0 <= j < |s| ==> !IsSpace(s[j]) && s[j] != ',' && s[j] != '\t'
  }

  lemma {:induction false} RunLengthOf(s: string, k: nat, sep: char -> bool)
    requires k <= |s|
    requires forall j :: 0 <= j < k ==> !sep(s[j])
    requires k == |s| || sep(s[k])
    ensures RunLength(s, sep) == k
  {
    if k > 0 {
      RunLengthOf(s[1..], k - 1, sep);
    }
  }

  /** The words of a string without whitespace. */
  lemma WordsOfOne(w: string)
    requires Plain(w)
    ensures Words(w) == [w]
  {
    RunLengthOf(w, |w|, IsSpace);
    assert w[..|w|] == w;
    assert w[|w|..] == [];
    assert Fields(w, IsSpace) == [w[..|w|]] + Fields(w[|w|..], IsSpace);
  }

  /** The words of `name repo`. */
  lemma WordsOfTwo(name: string, repo: string)
    requires Plain(name) && Plain(repo)
    ensures Words(name + " " + repo) == [name, repo]
  {
    var line := name + " " + repo;
    forall j | 0 <= j < |name| ensures !IsSpace(line[j]) {
      assert line[j] == name[j];
    }
    RunLengthOf(line, |name|, IsSpace);
    assert line[..|name|] == name;
    var tail := line[|name|..];
    assert tail == " " + repo;
    assert Fields(line, IsSpace) == [name] + Fields(tail, IsSpace);
    assert tail[1..] == repo;
    assert Fields(tail, IsSpace) == Fields(repo, IsSpace);
    WordsOfOne(repo);
  }

  /** `name repo` (one space) parses back to the two fields. */
  lemma SpaceLine(name: string, repo: string, urlPath: string -> string)
    requires Plain(name) && Plain(repo)
    ensures Strip(name + " " + repo) != []
    ensures ParseLine(name + " " + repo, urlPath) == Entry(name, repo)
  {
    var line := name + " " + repo;
    assert line[0] == name[0] && line[|line| - 1] == repo[|repo| - 1];
    StripTrimmed(line);
    assert ',' !in line && '\t' !in line by {
      forall j | 0 <= j < |line| ensures line[j] != ',' && line[j] != '\t' {
        if j < |name| { assert line[j] == name[j]; }
        else if j > |name| { assert line[j] == repo[j - |name| - 1]; }
      }
    }
    WordsOfTwo(name, repo);
    StripTrimmed(repo);
  }

  /** A line holding only an address takes the owner from the address as the name. */
  lemma AddressOnlyLine(repo: string, owner: string, repoName: string, urlPath: string -> string)
    requires Plain(repo) && owner != []
    requires RepoOwnerAndName(urlPath(repo)) == Some((owner, repoName))
    ensures Strip(repo) != []
    ensures ParseLine(repo, urlPath) == Entry(owner, repo)
  {
    StripTrimmed(repo);
    WordsOfOne(repo);
  }

  /** The pasted form of entries: one `name,repo` line each, joined with newlines. */
  function Render(entries: seq<Entry>): string
    requires |entries| >= 1
  {
    Join(RenderLines(entries), '\n')
  }

  function RenderLines(entries: seq<Entry>): (lines: seq<string>)
    ensures |lines| == |entries|
    ensures forall k :: 0 <= k < |lines| ==> lines[k] == entries[k].name + "," + entries[k].repo
  {
    if entries == [] then [] else RenderLines(entries[..|entries| - 1]) + [entries[|entries| - 1].name + "," + entries[|entries| - 1].repo]
  }

  /** An entry that renders to one line and parses back to itself. */
  predicate Renderable(e: Entry) {
    && ',' !in e.name && Trimmed(e.name) && Trimmed(e.repo)
    && OneLine(e.name) && OneLine(e.repo)
  }

  predicate OneLine(s: string) {
    forall j :: 0 <= j < |s| ==> !IsLineBreak(s[j])
  }

  /** The first piece of `SplitLines(head + "\n" + rest)`. */
  lemma SplitLinesHead(head: string, rest: string)
    requires OneLine(head)
    ensures SplitLines(head + "\n" + rest) == [head] + SplitLines(rest)
  {
    var s := head + "\n" + rest;
    forall j | 0 <= j < |head| ensures !IsLineBreak(s[j]) {
      assert s[j] == head[j];
    }
    RunLengthOf(s, |head|, IsLineBreak);
    assert s[..|head|] == head;
    assert s[|head| + 1..] == rest;
  }

  /** `SplitLines` undoes joining lines with `\n`. */
  lemma {:induction false} SplitLinesJoin(lines: seq<string>)
    requires |lines| >= 1
    requires forall k :: 0 <= k < |lines| ==> OneLine(lines[k])
    ensures SplitLines(Join(lines, '\n')) == lines
    decreases |lines|
  {
    if |lines| == 1 {
      RunLengthOf(lines[0], |lines[0]|, IsLineBreak);
    } else {
      var rest := Join(lines[1..], '\n');
      assert Join(lines, '\n') == lines[0] + "\n" + rest;
      SplitLinesHead(lines[0], rest);
      SplitLinesJoin(lines[1..]);
      assert lines == [lines[0]] + lines[1..];
    }
  }

  /** Parsing one more line that is not blank adds its entry. */
  lemma ParseLinesSnoc(lines: seq<string>, line: string, urlPath: string -> string)
    requires Strip(line) != []
    ensures ParseLines(lines + [line], urlPath) == ParseLines(lines, urlPath) + [ParseLine(line, urlPath)]
  {
    assert (lines + [line])[..|lines|] == lines;
  }

  lemma {:induction false} ParseRenderedLines(entries: seq<Entry>, urlPath: string -> string)
    requires forall k :: 0 <= k < |entries| ==> Renderable(entries[k])
    ensures ParseLines(RenderLines(entries), urlPath) == entries
  {
    if entries != [] {
      var front, last := entries[..|entries| - 1], entries[|entries| - 1];
      assert entries == front + [last];
      var line := last.name + "," + last.repo;
      assert RenderLines(entries) == RenderLines(front) + [line];
      ParseRenderedLines(front, urlPath);
      CommaLine(last.name, last.repo, urlPath);
      ParseLinesSnoc(RenderLines(front), line, urlPath);
    }
  }

  /** Rendering entries and parsing the text back gives the same entries. */
  lemma ParseRender(entries: seq<Entry>, urlPath: string -> string)
    requires |entries| >= 1
    requires forall k :: 0 <= k < |entries| ==> Renderable(entries[k])
    ensures ParseLines(SplitLines(Render(entries)), urlPath) == entries
  {
    var lines := RenderLines(entries);
    forall k | 0 <= k < |lines| ensures OneLine(lines[k]) {
      var e := entries[k];
      forall j | 0 <= j < |lines[k]| ensures !IsLineBreak(lines[k][j]) {
        if j < |e.name| { assert lines[k][j] == e.name[j]; }
        else if j > |e.name| { assert lines[k][j] == e.repo[j - |e.name| - 1]; }
      }
    }
    SplitLinesJoin(lines);
    ParseRenderedLines(entries, urlPath);
  }
}
