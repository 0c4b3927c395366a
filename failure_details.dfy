/**
  `getFailureDetails` (lib/index.js): the repository name taken from the SCM
  remote URL of the last failed build, the commit it is attributed to (the
  first change-set item), and the link to that commit on the Stash server.
 */
module FailureDetails {
  import opened Wrappers
  import opened JsStrings
  import opened BuildStatus

  /** `url.substr(url.lastIndexOf('/') + 1)`: the text after the last '/', or all of it. */
  function LastSegment(url: string): (seg: string)
    ensures '/' !in seg
    ensures |seg| <= |url| && seg == url[|url| - |seg|..]
    ensures '/' !in url ==> seg == url
    ensures '/' in url ==> url[|url| - |seg| - 1] == '/'
  {
    url[LastIndexOf(url, '/') + 1..]
  }

  /** Whatever precedes a final '/'-free segment, that segment is what is kept. */
  lemma LastSegmentOf(prefix: string, seg: string)
    requires '/' !in seg
    ensures LastSegment(prefix + "/" + seg) == seg
  {
    var url := prefix + "/" + seg;
    assert url[|prefix|] == '/';
  }

  /** `.git` */
  const GitSuffix: string := ".git"

  /** `s` ends with `suffix`. */
  predicate EndsWith(s: string, suffix: string) {
    |suffix| <= |s| && s[|s| - |suffix|..] == suffix
  }

  /**
    The repository name of lib/index.js:64: the last path segment of the remote
    URL with the first ".git" in it removed, wherever that occurrence lies.
   */
  function RepoName(remoteUrl: string): (name: string)
    ensures '/' !in name
    ensures !IsSubstring(GitSuffix, LastSegment(remoteUrl)) ==> name == LastSegment(remoteUrl)
    ensures IsSubstring(GitSuffix, LastSegment(remoteUrl)) ==> |name| == |LastSegment(remoteUrl)| - |GitSuffix|
  {
    ReplaceFirst(LastSegment(remoteUrl), GitSuffix, "")
  }

  /** A reference rule that removes ".git" from the end of a segment, and nothing else. */
  function StripGitSuffix(seg: string): (name: string)
    ensures EndsWith(seg, GitSuffix) ==> seg == name + GitSuffix
    ensures !EndsWith(seg, GitSuffix) ==> name == seg
  {
    if EndsWith(seg, GitSuffix) then seg[..|seg| - |GitSuffix|] else seg
  }

  /** Removing the first ".git" and removing a trailing one agree when the first is the trailing one, or there is none. */
  lemma StripsAgree(seg: string)
    requires !IsSubstring(GitSuffix, seg) || FirstOccurrence(seg, GitSuffix, |seg| - |GitSuffix|)
    ensures ReplaceFirst(seg, GitSuffix, "") == StripGitSuffix(seg)
  {
    if FirstOccurrence(seg, GitSuffix, |seg| - |GitSuffix|) {
      var i := |seg| - |GitSuffix|;
      ReplaceFirstAt(seg, GitSuffix, "", i);
      assert seg[..i] + "" + seg[i + |GitSuffix|..] == seg[..i];
    } else if EndsWith(seg, GitSuffix) {
      assert OccursAt(seg, GitSuffix, |seg| - |GitSuffix|);
    }
  }

  /** The repository name is the segment with its trailing ".git" cut off whenever that is its only ".git". */
  lemma RepoNameStripsSuffix(remoteUrl: string)
    requires var seg := LastSegment(remoteUrl);
      !IsSubstring(GitSuffix, seg) || FirstOccurrence(seg, GitSuffix, |seg| - |GitSuffix|)
    ensures RepoName(remoteUrl) == StripGitSuffix(LastSegment(remoteUrl))
  {
    StripsAgree(LastSegment(remoteUrl));
  }

  /** In a name without '.', the first ".git" is the one that follows the name. */
  lemma FirstGitAfterName(name: string, rest: string)
    requires '.' !in name
    ensures FirstOccurrence(name + GitSuffix + rest, GitSuffix, |name|)
  {
    var seg := name + GitSuffix + rest;
    assert seg[|name|..|name| + |GitSuffix|] == GitSuffix;
    forall j | 0 <= j < |name| ensures !OccursAt(seg, GitSuffix, j) {
      assert seg[j] == name[j];
    }
  }

  /** Removing the first ".git" from "<name>.git<rest>", for a '.'-free name, leaves "<name><rest>". */
  lemma ReplaceFirstGitAfterName(name: string, rest: string)
    requires '.' !in name
    ensures ReplaceFirst(name + GitSuffix + rest, GitSuffix, "") == name + rest
  {
    var seg := name + GitSuffix + rest;
    FirstGitAfterName(name, rest);
    ReplaceFirstAt(seg, GitSuffix, "", |name|);
    assert seg[..|name|] == name;
    assert seg[|name| + |GitSuffix|..] == rest;
  }

  /** The ".git" right after a '.'-free name is removed even when more text follows it. */
  lemma RepoNameRemovesFirstGit(prefix: string, name: string, rest: string)
    requires '.' !in name && '/' !in name && '/' !in rest
    ensures RepoName(prefix + "/" + (name + GitSuffix + rest)) == name + rest
  {
    var seg := name + GitSuffix + rest;
    assert '/' !in seg by {
      assert forall k :: 0 <= k < |seg| ==> seg[k] in name || seg[k] in GitSuffix || seg[k] in rest;
    }
    LastSegmentOf(prefix, seg);
    ReplaceFirstGitAfterName(name, rest);
  }

  /** A clone URL ".../<name>.git" with a '.'-free name, such as ".../proj/foo.git", gives `name`. */
  lemma RepoNameOfCloneUrl(prefix: string, name: string)
    requires '.' !in name && '/' !in name
    ensures RepoName(prefix + "/" + (name + GitSuffix)) == name
  {
    RepoNameRemovesFirstGit(prefix, name, "");
    assert name + GitSuffix + "" == name + GitSuffix;
    assert name + "" == name;
  }

  /** "https://git.example.com/proj/foo.git" gives "foo". */
  lemma RepoNameExample(url: string)
    requires url == "https://git.example.com/proj/foo.git"
    ensures RepoName(url) == "foo"
  {
    var prefix, name := "https://git.example.com/proj", "foo";
    assert url == prefix + "/" + (name + GitSuffix);
    RepoNameOfCloneUrl(prefix, name);
  }

  /** A ".git" inside the segment is removed instead of the trailing one: ".../foo.github.io.git" gives "foohub.io.git". */
  lemma RepoNameInnerGit(url: string)
    requires url == "https://git.example.com/proj/foo.github.io.git"
    ensures RepoName(url) == "foohub.io.git"
  {
    var prefix, name, rest := "https://git.example.com/proj", "foo", "hub.io.git";
    assert name + rest == "foohub.io.git";
    assert url == prefix + "/" + (name + GitSuffix + rest);
    RepoNameRemovesFirstGit(prefix, name, rest);
  }

  /** The trailing-suffix rule would keep that inner ".git": "foo.github.io.git" gives "foo.github.io". */
  lemma StripGitSuffixInnerGit()
    ensures StripGitSuffix("foo.github.io.git") == "foo.github.io"
  {
    var seg := "foo.github.io.git";
    assert seg == "foo.github.io" + GitSuffix;
  }

  // ---------------------------------------------------------------- commit link

  /** `${repoRoot}/${repoName}/commits/${commitId}` */
  function CommitUrl(repoRoot: string, repoName: string, commitId: string): (url: string)
    ensures |url| == |repoRoot| + 1 + |repoName| + |"/commits/"| + |commitId|
    ensures url[..|repoRoot| + 1] == repoRoot + "/"
    ensures url[|repoRoot| + 1..|repoRoot| + 1 + |repoName|] == repoName
    ensures url[|url| - |commitId| - |"/commits/"|..] == "/commits/" + commitId
  {
    repoRoot + "/" + repoName + "/commits/" + commitId
  }

  datatype CommitRef = CommitRef(repoName: string, commitId: string)

  /** Reads the repository name and commit id back out of a commit link under `repoRoot`. */
  function ParseCommitUrl(repoRoot: string, url: string): (ref: Option<CommitRef>) {
    var head := repoRoot + "/";
    if |url| < |head| || url[..|head|] != head then None
    else
      var rest := url[|head|..];
      var k := IndexOf(rest, "/");
      if k < 0 then None
      else
        var tail := rest[k..];
        var marker := "/commits/";
        if |tail| < |marker| || tail[..|marker|] != marker then None
        else Some(CommitRef(rest[..k], tail[|marker|..]))
  }

  /** A commit link names its repository and commit unambiguously when the name has no '/'. */
  lemma CommitUrlRoundTrip(repoRoot: string, repoName: string, commitId: string)
    requires '/' !in repoName
    ensures ParseCommitUrl(repoRoot, CommitUrl(repoRoot, repoName, commitId)) == Some(CommitRef(repoName, commitId))
  {
    var url := CommitUrl(repoRoot, repoName, commitId);
    var head := repoRoot + "/";
    var rest := repoName + "/commits/" + commitId;
    assert url == head + rest;
    assert url[..|head|] == head;
    assert url[|head|..] == rest;
    assert OccursAt(rest, "/", |repoName|);
    forall j | 0 <= j < |repoName| ensures !OccursAt(rest, "/", j) {
      assert rest[j] == repoName[j];
      assert rest[j..j + 1] == [rest[j]];
    }
    IndexOfFirst(rest, "/", |repoName|);
    var tail := rest[|repoName|..];
    assert tail == "/commits/" + commitId;
    assert tail[..|"/commits/"|] == "/commits/";
    assert tail[|"/commits/"|..] == commitId;
    assert rest[..|repoName|] == repoName;
  }

  // ---------------------------------------------------------------- getFailureDetails

  datatype BuildDetails = BuildDetails(url: string, number: int, timestamp: int, duration: int)

  datatype CommitDetails = CommitDetails(commitId: string, author: string, comment: string, commitUrl: string)

  datatype FailureDetail = FailureDetail(
    job: string,
    repoName: string,
    buildDetails: BuildDetails,
    commitDetails: CommitDetails)

  /** The fields `getFailureDetails` reads: the tenth action's first remote URL and a first change-set item. */
  predicate HasFailureFields(b: Build) {
    |b.actions| > 9
    && b.actions[9].remoteUrls.Some?
    && |b.actions[9].remoteUrls.value| > 0
    && |b.changeSet| > 0
  }

  /** `getFailureDetails` over the job's last failed build. */
  function GetFailureDetails(snap: CiSnapshot, repoRoot: string, jobName: string): (d: FailureDetail)
    requires jobName in snap.lastFailure && HasFailureFields(snap.lastFailure[jobName])
    ensures d.job == jobName
    ensures var b := snap.lastFailure[jobName];
      d.buildDetails == BuildDetails(b.url, b.number, b.timestamp, b.duration)
    ensures '/' !in d.repoName
    ensures d.repoName == RepoName(snap.lastFailure[jobName].actions[9].remoteUrls.value[0])
    ensures var item := snap.lastFailure[jobName].changeSet[0];
      d.commitDetails.commitId == item.commitId
      && d.commitDetails.author == item.authorFullName
      && d.commitDetails.comment == item.msg
    ensures ParseCommitUrl(repoRoot, d.commitDetails.commitUrl) == Some(CommitRef(d.repoName, d.commitDetails.commitId))
  {
    var b := snap.lastFailure[jobName];
    var repoName := RepoName(b.actions[9].remoteUrls.value[0]);
    var item := b.changeSet[0];
    CommitUrlRoundTrip(repoRoot, repoName, item.commitId);
    FailureDetail(
      jobName,
      repoName,
      BuildDetails(b.url, b.number, b.timestamp, b.duration),
      CommitDetails(item.commitId, item.authorFullName, item.msg, CommitUrl(repoRoot, repoName, item.commitId)))
  }
}
