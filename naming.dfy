/**
 * Task names, CLI names, image names and the version string of the build
 * script (dodo.py, lines 35-50 and 91-111).
 */
module Naming {
  import opened Wrappers
  import opened Strings

  const PROJECT_PREFIX: string := "CV"

  /** Environment variable through which CI names the branch being built. */
  const CI_BRANCH_VARIABLE: string := "CI_COMMIT_REF_NAME"

  /** What `get_task_name` accepts: a task function (it uses its `__name__`) or a name. */
  datatype TaskObject = Callable(name: string) | Text(text: string)

  function NameOf(task: TaskObject): string
  {
    match task
    case Callable(n) => n
    case Text(t) => t
  }

  /**
   * `get_task_name`: every "task_" in the name is erased. The name changes
   * exactly when "task_" occurs in it, and it never grows.
   */
  function GetTaskName(task: TaskObject): (r: string)
    ensures |r| <= |NameOf(task)|
    ensures r == NameOf(task) <==> !Occurs(NameOf(task), "task_")
  {
    EraseNoLonger(NameOf(task), "task_");
    EraseChangesIffOccurs(NameOf(task), "task_");
    Replace(NameOf(task), "task_", "")
  }

  /** For a task function `task_<n>` the task name is the name of `<n>`. */
  lemma TaskNameOfTaskFunction(n: string)
    ensures GetTaskName(Callable("task_" + n)) == GetTaskName(Text(n))
    ensures !Occurs(n, "task_") ==> GetTaskName(Callable("task_" + n)) == n
  {
    ReplaceLeading("task_", n, "");
  }

  /** The erasure scans once: erasing can form a new "task_" from the pieces around it. */
  lemma TaskNameMayStillContainPattern()
    ensures GetTaskName(Text("tastask_k_")) == "task_"
  {
    EraseStep("tastask_k_", "astask_k_");
    EraseStep("astask_k_", "stask_k_");
    EraseStep("stask_k_", "task_k_");
    assert "task_k_" == "task_" + "k_";
    ReplaceLeading("task_", "k_", "");
    assert Replace("k_", "task_", "") == "k_";
    assert [] + "k_" == "k_";
    assert ['t'] + (['a'] + (['s'] + "k_")) == "task_";
  }

  /** One character that cannot start "task_" is kept, and the scan moves on. */
  lemma EraseStep(s: string, rest: string)
    requires |s| >= 5 && s[1..] == rest
    requires s[0] != 't' || s[1] != 'a' || s[2] != 's' || s[3] != 'k' || s[4] != '_'
    ensures Replace(s, "task_", "") == [s[0]] + Replace(rest, "task_", "")
  {
    ReplaceSkips(s, "task_", "");
  }

  /**
   * `get_cli_handy_string`: every "_" becomes "-"; nothing else changes and
   * the length is kept.
   */
  function GetCliHandyString(text: string): (r: string)
    ensures |r| == |text|
    ensures forall i :: 0 <= i < |text| ==> r[i] == if text[i] == '_' then '-' else text[i]
  {
    ReplaceCharIsMap(text, '_', '-');
    Replace(text, "_", "-")
  }

  /** The CLI string has no underscore, and converting it again changes nothing. */
  lemma CliHandyStringIsIdempotent(text: string)
    ensures '_' !in GetCliHandyString(text)
    ensures GetCliHandyString(GetCliHandyString(text)) == GetCliHandyString(text)
  {
    var r := GetCliHandyString(text);
    assert forall i :: 0 <= i < |r| ==> r[i] != '_';
    assert GetCliHandyString(r) == r;
  }

  /** `get_cli_handy_task_name`: the task name, written with hyphens. */
  function GetCliHandyTaskName(task: TaskObject): (r: string)
    ensures '_' !in r && !Occurs(r, "task_")
  {
    var r := GetCliHandyString(GetTaskName(task));
    CliHandyStringIsIdempotent(GetTaskName(task));
    AbsentWhenCharMissing(r, "task_", 4);
    r
  }

  /** The CLI name of `task_<n>` is `<n>` with hyphens, when `<n>` has no "task_" of its own. */
  lemma CliNameOfTaskFunction(n: string)
    requires !Occurs(n, "task_")
    ensures GetCliHandyTaskName(Callable("task_" + n)) == GetCliHandyString(n)
  {
    TaskNameOfTaskFunction(n);
  }

  /** `construct_full_image_name`: the lower-cased project prefix, a hyphen, the image name. */
  function ConstructFullImageName(imageName: string): (r: string)
    ensures r == "cv-" + imageName
  {
    assert Lower(PROJECT_PREFIX) == "cv";
    Lower(PROJECT_PREFIX) + "-" + imageName
  }

  datatype VersionError = DetachedHead

  /**
   * What the version reads from the repository: the checked-out branch
   * (`None` for a detached HEAD, where reading `head.ref` fails), the head
   * commit's authored date already formatted as `%Y-%m-%d`, and its hash.
   */
  datatype HeadCommit = HeadCommit(branch: Option<string>, authoredDate: string, hexsha: string)

  /**
   * `get_current_branch`: the CI variable when it is set, else the checked-out
   * branch. It fails only when neither is there.
   */
  function GetCurrentBranch(env: map<string, string>, headBranch: Option<string>): (r: Result<string, VersionError>)
    ensures r.Failure? <==> CI_BRANCH_VARIABLE !in env && headBranch.None?
    ensures CI_BRANCH_VARIABLE in env ==> r == Success(env[CI_BRANCH_VARIABLE])
  {
    if CI_BRANCH_VARIABLE in env then Success(env[CI_BRANCH_VARIABLE])
    else match headBranch
      case Some(b) => Success(b)
      case None => Failure(DetachedHead)
  }

  /**
   * `get_version`: branch, authored date and the first seven characters of
   * the hash, joined by dashes. It fails exactly when the branch does, and the
   * version begins with the branch.
   */
  function GetVersion(env: map<string, string>, head: HeadCommit): (r: Result<string, VersionError>)
    ensures r.Success? <==> GetCurrentBranch(env, head.branch).Success?
    ensures r.Success? ==>
      var b := GetCurrentBranch(env, head.branch).value;
      |r.value| == |b| + |head.authoredDate| + 2 + (if |head.hexsha| < 7 then |head.hexsha| else 7) &&
      r.value[..|b|] == b && r.value[|b|] == '-'
  {
    match GetCurrentBranch(env, head.branch)
    case Success(b) => Success(b + "-" + head.authoredDate + "-" + Take(head.hexsha, 7))
    case Failure(e) => Failure(e)
  }

  /** The CI variable takes precedence: the checked-out branch is then never consulted. */
  lemma CiBranchTakesPrecedence(env: map<string, string>, h1: HeadCommit, h2: HeadCommit)
    requires CI_BRANCH_VARIABLE in env
    requires h1.authoredDate == h2.authoredDate && h1.hexsha == h2.hexsha
    ensures GetVersion(env, h1).Success?
    ensures GetVersion(env, h1) == GetVersion(env, h2)
    ensures GetVersion(env, h1).value[..|env[CI_BRANCH_VARIABLE]|] == env[CI_BRANCH_VARIABLE]
  {
  }

  /** Without the CI variable the version needs a checked-out branch, and fails on a detached HEAD. */
  lemma VersionFallsBackToCheckedOutBranch(env: map<string, string>, head: HeadCommit)
    requires CI_BRANCH_VARIABLE !in env
    ensures GetVersion(env, head).Success? <==> head.branch.Some?
    ensures head.branch.Some? ==>
      GetVersion(env, head).value[..|head.branch.value|] == head.branch.value
  {
  }

  /**
   * With a ten-character date and a full hash the version has the shape
   * `<branch>-YYYY-MM-DD-<7 characters of the hash>`.
   */
  lemma VersionShape(env: map<string, string>, head: HeadCommit)
    requires GetCurrentBranch(env, head.branch).Success?
    requires |head.authoredDate| == 10 && |head.hexsha| >= 7
    ensures var b := GetCurrentBranch(env, head.branch).value;
      var v := GetVersion(env, head).value;
      |v| == |b| + 19 &&
      v[..|b|] == b && v[|b|] == '-' &&
      v[|b| + 1..|b| + 11] == head.authoredDate && v[|b| + 11] == '-' &&
      v[|b| + 12..] == head.hexsha[..7]
  {
  }

  /** Only the first seven characters of the hash matter. */
  lemma VersionUsesShortHash(env: map<string, string>, h1: HeadCommit, h2: HeadCommit)
    requires h1.branch == h2.branch && h1.authoredDate == h2.authoredDate
    requires |h1.hexsha| >= 7 && |h2.hexsha| >= 7 && h1.hexsha[..7] == h2.hexsha[..7]
    ensures GetVersion(env, h1) == GetVersion(env, h2)
  {
    assert Take(h1.hexsha, 7) == h1.hexsha[..7];
    assert Take(h2.hexsha, 7) == h2.hexsha[..7];
  }

  /**
   * `construct_tagged_full_image_name`: the full image name, a colon, the
   * version. It fails exactly when the version does.
   */
  function ConstructTaggedFullImageName(imageName: string, env: map<string, string>, head: HeadCommit)
    : (r: Result<string, VersionError>)
    ensures r.Success? <==> GetVersion(env, head).Success?
    ensures r.Success? ==>
      |r.value| == |imageName| + 4 + |GetVersion(env, head).value| &&
      r.value[..|imageName| + 3] == "cv-" + imageName && r.value[|imageName| + 3] == ':'
  {
    match GetVersion(env, head)
    case Success(v) => Success(ConstructFullImageName(imageName) + ":" + v)
    case Failure(e) => Failure(e)
  }

  /**
   * For an image name without a colon, the tagged name splits at its first
   * colon into the full image name and the version.
   */
  lemma TaggedNameSplitsIntoNameAndVersion(imageName: string, env: map<string, string>, head: HeadCommit)
    requires ':' !in imageName
    requires GetVersion(env, head).Success?
    ensures var t := ConstructTaggedFullImageName(imageName, env, head);
      t.Success? &&
      SplitAtFirst(t.value, ':') == Some((ConstructFullImageName(imageName), GetVersion(env, head).value))
  {
    var full := ConstructFullImageName(imageName);
    var v := GetVersion(env, head).value;
    var t := full + ":" + v;
    assert ':' !in full by {
      assert full == "cv-" + imageName;
    }
    var k := IndexOf(t, ':');
    assert t[|full|] == ':';
    assert k.Some?;
    assert k.value == |full| by {
      assert t[..|full|] == full;
      assert k.value <= |full|;
    }
    assert t[..|full|] == full;
    assert t[|full| + 1..] == v;
  }

  /** The tagged name combines every input the way the script's format strings do. */
  lemma TaggedNameLayout(imageName: string, env: map<string, string>, head: HeadCommit)
    requires GetCurrentBranch(env, head.branch).Success?
    ensures ConstructTaggedFullImageName(imageName, env, head) ==
      Success("cv-" + imageName + ":" + GetCurrentBranch(env, head.branch).value + "-" +
              head.authoredDate + "-" + Take(head.hexsha, 7))
  {
    var full := ConstructFullImageName(imageName);
    var b := GetCurrentBranch(env, head.branch).value;
    var h := Take(head.hexsha, 7);
    assert GetVersion(env, head) == Success(b + "-" + head.authoredDate + "-" + h);
    assert full + ":" + (b + "-" + head.authoredDate + "-" + h) ==
           "cv-" + imageName + ":" + b + "-" + head.authoredDate + "-" + h;
  }
}
