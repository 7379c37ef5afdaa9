/**
 * The Subversion client adapter: address classification, the credential arguments bound at
 * construction, and the four repository operations as the command lines they run and the values
 * they return.
 */
module Svn {
  import opened Wrappers
  import opened Strings
  import opened Paths
  import opened Host

  /** The two address spaces. */
  datatype AddressKind = Filesystem | Repository

  /**
   * The class's URL regular expression `^(?:(?:http|ftp)s?://|file:///)`, matched at the start of
   * the string, branch by branch.
   */
  predicate URLCheck(path: string) {
    var afterScheme :=
      if StartsWith(path, "http") then Some(path[4..])
      else if StartsWith(path, "ftp") then Some(path[3..])
      else None;
    (afterScheme.Some? && (StartsWith(afterScheme.value, "://") || StartsWith(afterScheme.value, "s://")))
    || StartsWith(path, "file:///")
  }

  const UrlPrefixes: seq<string> := ["http://", "https://", "ftp://", "ftps://", "file:///"]

  /** The regular expression accepts exactly the strings that begin with one of the five prefixes. */
  lemma URLCheckIsPrefixTest(path: string)
    ensures URLCheck(path) <==> exists p :: p in UrlPrefixes && StartsWith(path, p)
  {
    StartsWithConcat(path, "http", "://");
    StartsWithConcat(path, "http", "s://");
    StartsWithConcat(path, "ftp", "://");
    StartsWithConcat(path, "ftp", "s://");
    assert "http" + "://" == UrlPrefixes[0] && "http" + "s://" == UrlPrefixes[1];
    assert "ftp" + "://" == UrlPrefixes[2] && "ftp" + "s://" == UrlPrefixes[3];
    if StartsWith(path, "http") {
      assert !StartsWith(path, "ftp") by { assert path[0] == 'h'; }
    }
    if URLCheck(path) {
      if StartsWith(path, "http") && StartsWith(path[4..], "://") {
        assert UrlPrefixes[0] in UrlPrefixes;
      } else if StartsWith(path, "http") && StartsWith(path[4..], "s://") {
        assert UrlPrefixes[1] in UrlPrefixes;
      } else if StartsWith(path, "ftp") && StartsWith(path[3..], "://") {
        assert UrlPrefixes[2] in UrlPrefixes;
      } else if StartsWith(path, "ftp") && StartsWith(path[3..], "s://") {
        assert UrlPrefixes[3] in UrlPrefixes;
      } else {
        assert UrlPrefixes[4] in UrlPrefixes;
      }
    }
  }

  function Classify(path: string): (k: AddressKind)
    ensures k == Repository <==> exists p :: p in UrlPrefixes && StartsWith(path, p)
  {
    URLCheckIsPrefixTest(path);
    if URLCheck(path) then Repository else Filesystem
  }

  /** Python truthiness of an optional string argument: given and non-empty. */
  predicate Given(s: Option<string>) {
    s.Some? && s.value != ""
  }

  /** The value following `flag` in a list of flag/value pairs. */
  function FlagValue(args: seq<string>, flag: string): Option<string>
    decreases |args|
  {
    if |args| < 2 then None
    else if args[0] == flag then Some(args[1])
    else FlagValue(args[2..], flag)
  }

  /** The credential arguments the constructor builds from an optional user and password. */
  function AuthArgs(user: Option<string>, password: Option<string>): seq<string> {
    if Given(user) then
      ["--username", user.value] + (if Given(password) then ["--password", password.value] else [])
    else []
  }

  /**
   * What the tool reads from the credential arguments: the user exactly when one is given, the
   * password exactly when both a user and a password are given.
   */
  lemma {:induction false} AuthArgsCarryCredentials(user: Option<string>, password: Option<string>)
    ensures |AuthArgs(user, password)| % 2 == 0
    ensures FlagValue(AuthArgs(user, password), "--username") == if Given(user) then user else None
    ensures FlagValue(AuthArgs(user, password), "--password") ==
              if Given(user) && Given(password) then password else None
  {
    var a := AuthArgs(user, password);
    if Given(user) {
      assert FlagValue(a, "--username") == user;
      if Given(password) {
        assert a[2..] == ["--password", password.value];
        assert FlagValue(a[2..], "--password") == password;
        assert FlagValue(a, "--password") == password;
      } else {
        assert a[2..] == [];
        assert FlagValue(a, "--password") == FlagValue(a[2..], "--password");
      }
    }
  }

  lemma PasswordWithoutUserIgnored(password: Option<string>)
    ensures AuthArgs(None, password) == []
    ensures AuthArgs(Some(""), password) == []
  {
  }

  const CommonArgs: seq<string> := ["--non-interactive", "--trust-server-cert-failures=unknown-ca"]

  /** The repository URL an import creates: `dest + "/" + basename(src)`. */
  function ImportTarget(destUrl: string, fileSrc: string): string {
    SepJoin(destUrl, Basename(fileSrc))
  }

  /** The imported URL lies directly under the destination and is named after the source's base name. */
  lemma ImportTargetIsChild(destUrl: string, fileSrc: string)
    ensures StartsWith(ImportTarget(destUrl, fileSrc), destUrl + "/")
    ensures Basename(ImportTarget(destUrl, fileSrc)) == Basename(fileSrc)
  {
    BasenameAfterSeparator(destUrl, Basename(fileSrc));
    assert ImportTarget(destUrl, fileSrc)[..|destUrl| + 1] == destUrl + "/";
  }

  /** The Subversion controller; its credential arguments are fixed once constructed. */
  class SvnController {
    const authArgs: seq<string>

    constructor (user: Option<string>, password: Option<string>)
      ensures authArgs == AuthArgs(user, password)
    {
      var args: seq<string> := [];
      if Given(user) {
        args := args + ["--username", user.value];
        if Given(password) {
          args := args + ["--password", password.value];
        }
      }
      authArgs := args;
    }

    function ExportCommand(srcUrl: string, fileDest: string): seq<string> {
      ["svn", "export", srcUrl, fileDest, "--force"] + authArgs + CommonArgs
    }

    function ImportCommand(destUrl: string, fileSrc: string, logMessage: string): seq<string> {
      ["svn", "import", fileSrc, ImportTarget(destUrl, fileSrc), "-m", logMessage] + authArgs + CommonArgs
    }

    /** The copy subcommand wraps the message in literal double quotes; no shell removes them. */
    function CopyCommand(srcUrl: string, destUrl: string, logMessage: string): seq<string> {
      ["svn", "copy", srcUrl, destUrl, "-m", "\"" + logMessage + "\""] + authArgs + CommonArgs
    }

    function ListCommand(url: string): seq<string> {
      ["svn", "ls", url] + authArgs + CommonArgs
    }

    /** `vcs_export`: the destination path, once the export has exited 0. */
    function Export(env: Env, srcUrl: string, fileDest: string): (r: Outcome<string>)
      ensures r.Ok? <==> env.exitOk(ExportCommand(srcUrl, fileDest))
      ensures r.Ok? ==> r.value == fileDest
      ensures r.Err? ==> r.error == ExternalToolFailure(ExportCommand(srcUrl, fileDest))
    {
      var cmd := ExportCommand(srcUrl, fileDest);
      if env.exitOk(cmd) then Ok(fileDest) else Err(ExternalToolFailure(cmd))
    }

    /** `vcs_import`: the URL of the new child named after the source's base name. */
    function Import(env: Env, destUrl: string, fileSrc: string, logMessage: string): (r: Outcome<string>)
      ensures r.Ok? <==> env.exitOk(ImportCommand(destUrl, fileSrc, logMessage))
      ensures r.Ok? ==> r.value == ImportTarget(destUrl, fileSrc)
      ensures r.Err? ==> r.error == ExternalToolFailure(ImportCommand(destUrl, fileSrc, logMessage))
    {
      var cmd := ImportCommand(destUrl, fileSrc, logMessage);
      if env.exitOk(cmd) then Ok(ImportTarget(destUrl, fileSrc)) else Err(ExternalToolFailure(cmd))
    }

    /** `vcs_copy`: the destination URL, once the server-side copy has exited 0. */
    function Copy(env: Env, srcUrl: string, destUrl: string, logMessage: string): (r: Outcome<string>)
      ensures r.Ok? <==> env.exitOk(CopyCommand(srcUrl, destUrl, logMessage))
      ensures r.Ok? ==> r.value == destUrl
      ensures r.Err? ==> r.error == ExternalToolFailure(CopyCommand(srcUrl, destUrl, logMessage))
    {
      var cmd := CopyCommand(srcUrl, destUrl, logMessage);
      if env.exitOk(cmd) then Ok(destUrl) else Err(ExternalToolFailure(cmd))
    }

    /** `vcs_list`: the output lines of `svn ls`, once it has exited 0. */
    function List(env: Env, url: string): (r: Outcome<seq<string>>)
      ensures r.Ok? <==> env.exitOk(ListCommand(url))
      ensures r.Ok? ==> r.value == env.stdout(ListCommand(url))
      ensures r.Err? ==> r.error == ExternalToolFailure(ListCommand(url))
    {
      var cmd := ListCommand(url);
      if env.exitOk(cmd) then Ok(env.stdout(cmd)) else Err(ExternalToolFailure(cmd))
    }
  }
}
