/**
 * Reading a GitHub repository address: `repo_owner_and_name`,
 * `normalize_repo_url`, `extract_github_username` and `get_avatar_url`.
 * The source first applies `urlparse(repo_url).path`; the functions here take
 * that path component as their input.
 */
module RepoUrl {
  import opened Wrappers
  import opened PyStr

  /** The path with trailing `/` removed, then one leading `/`, then a `.git` suffix. */
  function CleanPath(path: string): string {
    var p1 := RStripChar(path, '/');
    var p2 := if StartsWith(p1, "/") then p1[1..] else p1;
    if EndsWith(p2, ".git") then p2[..|p2| - 4] else p2
  }

  /** The first piece of `s.split(c)` is a prefix of `s` ended by `c` or by the end of `s`. */
  lemma {:induction false} SplitHead(s: string, c: char)
    ensures var h := Split(s, c)[0]; StartsWith(s, h) && (|h| == |s| || s[|h|] == c)
    ensures |Split(s, c)| >= 2 <==> c in s
  {
    if c in s {
      var i := IndexOf(s, c);
      assert Split(s, c) == [s[..i]] + Split(s[i + 1..], c);
    }
  }

  /** `repo_owner_and_name`: the first two `/`-separated pieces of the cleaned
      path, or `(None, None)` when it has no `/`. Empty pieces are not skipped. */
  function RepoOwnerAndName(path: string): (r: Option<(string, string)>)
    ensures r.Some? <==> '/' in CleanPath(path)
    ensures r.Some? ==>
      var (owner, name) := r.value;
      var clean := CleanPath(path);
      && '/' !in owner && '/' !in name
      && StartsWith(clean, owner + "/" + name)
      && (|clean| == |owner| + 1 + |name| || clean[|owner| + 1 + |name|] == '/')
  {
    var parts := Split(CleanPath(path), '/');
    SplitHead(CleanPath(path), '/');
    if |parts| >= 2 then
      FirstTwoPieces(CleanPath(path));
      Some((parts[0], parts[1]))
    else None
  }

  /** The first two pieces of a string holding `c` are its text up to the first `c` and
      the text from there up to the next `c` or the end. */
  lemma FirstTwoPieces(clean: string)
    requires '/' in clean
    ensures var parts := Split(clean, '/');
      && |parts| >= 2 && '/' !in parts[0] && '/' !in parts[1]
      && StartsWith(clean, parts[0] + "/" + parts[1])
      && (|clean| == |parts[0]| + 1 + |parts[1]| || clean[|parts[0]| + 1 + |parts[1]|] == '/')
  {
    var i := IndexOf(clean, '/');
    var rest := clean[i + 1..];
    var tail := Split(rest, '/');
    assert Split(clean, '/') == [clean[..i]] + tail;
    SplitHead(rest, '/');
    JoinAtSlash(clean, i, tail[0]);
  }

  /** The text up to the slash at `i`, the slash, then a prefix `h` of what follows
      it that ends at the end or before a slash. */
  lemma JoinAtSlash(clean: string, i: nat, h: string)
    requires i < |clean| && clean[i] == '/'
    requires StartsWith(clean[i + 1..], h)
    requires |h| == |clean| - i - 1 || clean[i + 1..][|h|] == '/'
    ensures StartsWith(clean, clean[..i] + "/" + h)
    ensures |clean| == |clean[..i]| + 1 + |h| || clean[|clean[..i]| + 1 + |h|] == '/'
  {
    var rest := clean[i + 1..];
    assert rest[..|h|] == h;
    assert clean[..i + 1 + |h|] == clean[..i] + "/" + h by {
      assert clean[..i + 1 + |h|] == clean[..i] + [clean[i]] + rest[..|h|];
    }
    if |h| < |rest| {
      assert clean[i + 1 + |h|] == rest[|h|];
    }
  }

  /** The path of a repository page `/owner/name`, with or without `.git` or a trailing `/`. */
  lemma OwnerAndNameOfRepoPath(owner: string, name: string)
    requires '/' !in owner && '/' !in name && name != [] && !EndsWith(name, ".git")
    ensures RepoOwnerAndName("/" + owner + "/" + name) == Some((owner, name))
    ensures RepoOwnerAndName("/" + owner + "/" + name + "/") == Some((owner, name))
    ensures RepoOwnerAndName("/" + owner + "/" + name + ".git") == Some((owner, name))
  {
    var s := owner + "/" + name;
    CleanRepoPath(owner, name);
    CleanRepoPathSlash(owner, name);
    CleanRepoPathGit(owner, name);
    SplitOwnerName(owner, name);
    assert Split(s, '/') == [owner] + Split(name, '/');
  }

  lemma CleanRepoPath(owner: string, name: string)
    requires '/' !in owner && '/' !in name && name != [] && !EndsWith(name, ".git")
    ensures CleanPath("/" + owner + "/" + name) == owner + "/" + name
  {
    var p := "/" + owner + "/" + name;
    RStripSlash(p);
    assert p[1..] == owner + "/" + name;
    NoGitSuffix(owner, name);
  }

  lemma CleanRepoPathSlash(owner: string, name: string)
    requires '/' !in owner && '/' !in name && name != [] && !EndsWith(name, ".git")
    ensures CleanPath("/" + owner + "/" + name + "/") == owner + "/" + name
  {
    var p := "/" + owner + "/" + name;
    RStripSlash2(p);
    assert p[1..] == owner + "/" + name;
    NoGitSuffix(owner, name);
  }

  lemma CleanRepoPathGit(owner: string, name: string)
    requires '/' !in owner && '/' !in name && name != []
    ensures CleanPath("/" + owner + "/" + name + ".git") == owner + "/" + name
  {
    var s := owner + "/" + name;
    var g := "/" + owner + "/" + name + ".git";
    assert g[|g| - 1] == 't';
    RStripSlash(g);
    assert g[1..] == s + ".git";
    assert (s + ".git")[..|s|] == s;
  }

  lemma SplitOwnerName(owner: string, name: string)
    requires '/' !in owner
    ensures Split(owner + "/" + name, '/') == [owner] + Split(name, '/')
  {
    var s := owner + "/" + name;
    IndexOfAfter(owner, name);
    assert s[..|owner|] == owner && s[|owner| + 1..] == name;
  }

  lemma NoGitSuffix(owner: string, name: string)
    requires '/' !in name && !EndsWith(name, ".git")
    ensures !EndsWith(owner + "/" + name, ".git")
  {
    var s := owner + "/" + name;
    if |s| >= 4 {
      if |name| >= 4 {
        assert s[|s| - 4..] == name[|name| - 4..];
      } else {
        assert s[|s| - 4..][3 - |name|] == '/';
      }
    }
  }

  lemma RStripSlash(p: string)
    requires p != [] && p[|p| - 1] != '/'
    ensures RStripChar(p, '/') == p
  {
  }

  lemma RStripSlash2(p: string)
    requires p != [] && p[|p| - 1] != '/'
    ensures RStripChar(p + "/", '/') == p
  {
    assert (p + "/")[..|p|] == p;
  }

  lemma IndexOfAfter(owner: string, rest: string)
    requires '/' !in owner
    ensures IndexOf(owner + "/" + rest, '/') == |owner|
    decreases |owner|
  {
    if owner != [] {
      assert (owner + "/" + rest)[1..] == owner[1..] + "/" + rest;
      IndexOfAfter(owner[1..], rest);
    }
  }

  /** `normalize_repo_url`: the address with surrounding whitespace removed. */
  function NormalizeRepoUrl(repoUrl: string): (r: string)
    ensures r == [] || (!IsSpace(r[0]) && !IsSpace(r[|r| - 1]))
    ensures |r| <= |repoUrl|
  {
    Strip(repoUrl)
  }

  /** The normalised address is a piece of the input with only whitespace on
      either side of it, and it is empty exactly when the input is all whitespace. */
  lemma NormalizeRepoUrlIsPadded(repoUrl: string)
    ensures NormalizeRepoUrl(repoUrl) == [] <==> forall j :: 0 <= j < |repoUrl| ==> IsSpace(repoUrl[j])
    ensures exists i :: PaddedAt(repoUrl, NormalizeRepoUrl(repoUrl), i)
  {
    StripIsPadded(repoUrl);
  }

  /** `extract_github_username`: the owner piece, when there is a non-empty one. */
  function ExtractGithubUsername(path: string): (r: Option<string>)
    ensures r.Some? <==> RepoOwnerAndName(path).Some? && RepoOwnerAndName(path).value.0 != ""
    ensures r.Some? ==> r.value == RepoOwnerAndName(path).value.0
  {
    match RepoOwnerAndName(path)
    case Some((owner, _)) => if owner != "" then Some(owner) else None
    case None => None
  }

  /** `get_avatar_url(repo_url, size)`: the owner's avatar picture on github.com. */
  function GetAvatarUrl(path: string, size: nat): (r: Option<string>)
    ensures r.Some? <==> ExtractGithubUsername(path).Some?
    ensures r.Some? ==> r.value == "https://github.com/" + ExtractGithubUsername(path).value + ".png?size=" + NatToString(size)
  {
    match ExtractGithubUsername(path)
    case Some(user) => Some("https://github.com/" + user + ".png?size=" + NatToString(size))
    case None => None
  }

  /** The avatar checks of the project's test script, with the default size 80. */
  lemma AvatarOfRepository(owner: string, name: string)
    requires owner != [] && '/' !in owner && '/' !in name && name != [] && !EndsWith(name, ".git")
    ensures GetAvatarUrl("/" + owner + "/" + name, 80) == Some("https://github.com/" + owner + ".png?size=80")
  {
    var path := "/" + owner + "/" + name;
    UsernameOfRepoPath(owner, name);
    AvatarOfUser(path, owner);
  }

  lemma UsernameOfRepoPath(owner: string, name: string)
    requires owner != [] && '/' !in owner && '/' !in name && name != [] && !EndsWith(name, ".git")
    ensures ExtractGithubUsername("/" + owner + "/" + name) == Some(owner)
  {
    OwnerAndNameOfRepoPath(owner, name);
  }

  lemma AvatarOfUser(path: string, owner: string)
    requires ExtractGithubUsername(path) == Some(owner)
    ensures GetAvatarUrl(path, 80) == Some("https://github.com/" + owner + ".png?size=80")
  {
    assert NatToString(80) == "80" by {
      assert NatToString(8) == "8";
    }
    var head := "https://github.com/" + owner;
    assert ".png?size=" + "80" == ".png?size=80";
    assert head + ".png?size=" + "80" == head + (".png?size=" + "80");
  }
}
