/**
 * The build processor: a walk over the build section in document order that copies each
 * `dependency` and runs each `buildExecutable`, ignoring every other tag and stopping at the
 * first failure.
 */
module Processor {
  import opened Wrappers
  import opened Host
  import opened Svn
  import opened Copier
  import opened Xml
  import opened Template

  /** What a node asks the runner to do. */
  datatype Action =
    | CopyAction(dest: string, src: string, logMessage: string)
    | RunAction(executable: string, args: string)

  /** `attrib[key]`, a KeyError when absent. */
  function Required(attrs: Attrs, key: string): (r: Outcome<string>)
    ensures r.Ok? <==> Get(attrs, key).Some?
    ensures r.Ok? ==> r.value == Get(attrs, key).value
    ensures r.Err? ==> r.error == MissingAttribute(key)
  {
    match Get(attrs, key)
    case Some(v) => Ok(v)
    case None => Err(MissingAttribute(key))
  }

  /**
   * The action a node triggers, read from its attributes: a dependency needs `dest`, then `path`;
   * a build executable needs `path` with a glob match, runs the first match and defaults `args`
   * to the empty string. Any other tag triggers nothing.
   */
  function Plan(env: Env, node: Element): (r: Outcome<Option<Action>>)
    ensures node.tag != "dependency" && node.tag != "buildExecutable" <==> r == Ok(None)
    ensures node.tag == "dependency" ==> (r.Ok? <==> Get(node.attrib, "dest").Some? && Get(node.attrib, "path").Some?)
    ensures node.tag == "dependency" && r.Ok? ==>
      r.value == Some(CopyAction(Get(node.attrib, "dest").value, Get(node.attrib, "path").value,
                                 "Copied from " + Get(node.attrib, "path").value))
    ensures node.tag == "buildExecutable" ==>
      (r.Ok? <==> Get(node.attrib, "path").Some? && env.glob(Get(node.attrib, "path").value) != [])
    ensures node.tag == "buildExecutable" && r.Ok? ==>
      r.value.Some? && r.value.value.RunAction?
      && r.value.value.executable == env.glob(Get(node.attrib, "path").value)[0]
      && r.value.value.args == (if Get(node.attrib, "args").Some? then Get(node.attrib, "args").value else "")
  {
    if node.tag == "dependency" then
      var dest :- Required(node.attrib, "dest");
      var path :- Required(node.attrib, "path");
      Ok(Some(CopyAction(dest, path, "Copied from " + path)))
    else if node.tag == "buildExecutable" then
      var path :- Required(node.attrib, "path");
      var matches := env.glob(path);
      if matches == [] then Err(NoGlobMatch(path))
      else
        var args := match Get(node.attrib, "args") case Some(a) => a case None => "";
        Ok(Some(RunAction(matches[0], args)))
    else Ok(None)
  }

  /**
   * Carrying out one action: a copy through the copier, or a run of the executable, which adds
   * the directories it leaves on disk when it succeeds.
   */
  function Perform(svn: SvnController, env: Env, dirs: set<string>, a: Action): Effect<()> {
    match a
    case CopyAction(dest, src, log) =>
      var e := CopyEffect(svn, env, dirs, dest, src, log);
      Effect(if e.result.Ok? then Ok(()) else Err(e.result.error), e.dirs)
    case RunAction(exe, args) =>
      if env.execOk(exe, args) then Effect(Ok(()), dirs + env.execMade(exe, args))
      else Effect(Err(ExecutableFailure(exe, args)), dirs)
  }

  /** The outcome of a walk: its result, the directories afterwards and the actions attempted. */
  datatype Run = Run(result: Outcome<()>, dirs: set<string>, trace: seq<Action>)

  /** A walk's work, then the next one's from where it left off. */
  function Then(first: Run, next: Run): Run {
    Run(next.result, next.dirs, first.trace + next.trace)
  }

  /** One node: read its action, then carry it out. */
  function Step(svn: SvnController, env: Env, dirs: set<string>, node: Element): Run {
    match Plan(env, node)
    case Err(e) => Run(Err(e), dirs, [])
    case Ok(None) => Run(Ok(()), dirs, [])
    case Ok(Some(a)) =>
      var e := Perform(svn, env, dirs, a);
      Run(e.result, e.dirs, [a])
  }

  /** Processing a sequence of nodes in order, stopping at the first failure. */
  function Walk(svn: SvnController, env: Env, dirs: set<string>, nodes: seq<Element>): Run
    decreases |nodes|
  {
    if nodes == [] then Run(Ok(()), dirs, [])
    else
      var s := Step(svn, env, dirs, nodes[0]);
      if s.result.Err? then s else Then(s, Walk(svn, env, s.dirs, nodes[1..]))
  }

  /** Every action the nodes ask for, in order, or the first node that cannot be read. */
  function Planned(env: Env, nodes: seq<Element>): Outcome<seq<Action>> {
    if nodes == [] then Ok([])
    else
      var p :- Plan(env, nodes[0]);
      var rest :- Planned(env, nodes[1..]);
      Ok((if p.Some? then [p.value] else []) + rest)
  }

  /** A successful walk attempted exactly the planned actions, all of them. */
  lemma {:induction false} WalkPerformsPlan(svn: SvnController, env: Env, dirs: set<string>, nodes: seq<Element>)
    requires Walk(svn, env, dirs, nodes).result.Ok?
    ensures Planned(env, nodes) == Ok(Walk(svn, env, dirs, nodes).trace)
    decreases |nodes|
  {
    if nodes != [] {
      var s := Step(svn, env, dirs, nodes[0]);
      WalkPerformsPlan(svn, env, s.dirs, nodes[1..]);
    }
  }

  /** Whatever a walk attempted is a prefix of the plan, when the whole plan can be read. */
  lemma {:induction false} WalkFollowsPlan(svn: SvnController, env: Env, dirs: set<string>, nodes: seq<Element>)
    requires Planned(env, nodes).Ok?
    ensures var t := Walk(svn, env, dirs, nodes).trace;
      |t| <= |Planned(env, nodes).value| && t == Planned(env, nodes).value[..|t|]
    decreases |nodes|
  {
    if nodes != [] {
      var s := Step(svn, env, dirs, nodes[0]);
      if s.result.Ok? {
        WalkFollowsPlan(svn, env, s.dirs, nodes[1..]);
      }
    }
  }

  /** Nodes with no dependency or build executable among them do nothing and cannot fail. */
  lemma {:induction false} WalkIgnoresOtherTags(svn: SvnController, env: Env, dirs: set<string>, nodes: seq<Element>)
    requires forall i :: 0 <= i < |nodes| ==> nodes[i].tag != "dependency" && nodes[i].tag != "buildExecutable"
    ensures Walk(svn, env, dirs, nodes) == Run(Ok(()), dirs, [])
    decreases |nodes|
  {
    if nodes != [] {
      WalkIgnoresOtherTags(svn, env, dirs, nodes[1..]);
    }
  }

  /** Walking two runs of nodes is walking the first, then the second from where the first stopped. */
  lemma {:induction false} WalkAppend(svn: SvnController, env: Env, dirs: set<string>, xs: seq<Element>, ys: seq<Element>)
    ensures var w := Walk(svn, env, dirs, xs);
      Walk(svn, env, dirs, xs + ys) == if w.result.Ok? then Then(w, Walk(svn, env, w.dirs, ys)) else w
    decreases |xs|
  {
    if xs == [] {
      assert xs + ys == ys;
    } else {
      assert (xs + ys)[0] == xs[0];
      assert (xs + ys)[1..] == xs[1..] + ys;
      var s := Step(svn, env, dirs, xs[0]);
      if s.result.Ok? {
        WalkAppend(svn, env, s.dirs, xs[1..], ys);
        var w' := Walk(svn, env, s.dirs, xs[1..]);
        if w'.result.Ok? {
          var z := Walk(svn, env, w'.dirs, ys);
          assert s.trace + (w'.trace + z.trace) == (s.trace + w'.trace) + z.trace;
        }
      }
    }
  }

  /** A walk over at least one node: its first step, then, unless that failed, the rest. */
  lemma WalkCons(svn: SvnController, env: Env, dirs: set<string>, nodes: seq<Element>)
    requires nodes != []
    ensures var s := Step(svn, env, dirs, nodes[0]);
      Walk(svn, env, dirs, nodes) == if s.result.Err? then s else Then(s, Walk(svn, env, s.dirs, nodes[1..]))
  {
  }

  /** Chaining runs is associative. */
  lemma ThenAssoc(a: Run, b: Run, c: Run)
    ensures Then(a, Then(b, c)) == Then(Then(a, b), c)
  {
    assert a.trace + (b.trace + c.trace) == (a.trace + b.trace) + c.trace;
  }

  /** One node of `process`: a dependency through the copier, a build executable run, or nothing. */
  method ProcessNode(svn: SvnController, env: Env, dirs: set<string>, node: Element) returns (s: Run)
    ensures s == Step(svn, env, dirs, node)
  {
    var plan := Plan(env, node);
    if plan.Err? {
      return Run(Err(plan.error), dirs, []);
    }
    if plan.value.None? {
      return Run(Ok(()), dirs, []);
    }
    var a := plan.value.value;
    match a
    case CopyAction(dest, src, log) =>
      var copied, dirs' := Copy(svn, env, dirs, dest, src, log);
      s := Run(if copied.Ok? then Ok(()) else Err(copied.error), dirs', [a]);
    case RunAction(exe, args) =>
      if env.execOk(exe, args) {
        s := Run(Ok(()), dirs + env.execMade(exe, args), [a]);
      } else {
        s := Run(Err(ExecutableFailure(exe, args)), dirs, [a]);
      }
  }

  /** `process`: every node of the section, in `iter()` order, stopping at the first failure. */
  method Process(svn: SvnController, env: Env, dirs: set<string>, main: Element)
    returns (result: Outcome<()>, dirs': set<string>, trace: seq<Action>)
    ensures Run(result, dirs', trace) == Walk(svn, env, dirs, Iter(main))
  {
    var nodes := Iter(main);
    dirs', trace := dirs, [];
    var i := 0;
    while i < |nodes|
      invariant i <= |nodes|
      invariant Walk(svn, env, dirs, nodes) == Then(Run(Ok(()), dirs', trace), Walk(svn, env, dirs', nodes[i..]))
    {
      assert nodes[i..][0] == nodes[i] && nodes[i..][1..] == nodes[i + 1..];
      WalkCons(svn, env, dirs', nodes[i..]);
      var s := ProcessNode(svn, env, dirs', nodes[i]);
      ThenAssoc(Run(Ok(()), dirs', trace), s, Walk(svn, env, s.dirs, nodes[i + 1..]));
      dirs', trace := s.dirs, trace + s.trace;
      if s.result.Err? {
        return s.result, dirs', trace;
      }
      i := i + 1;
    }
    result := Ok(());
  }

  /**
   * The build command: produce the root, find its `build` section (an error when there is none),
   * then process that section.
   */
  function Build(svn: SvnController, env: Env, dirs: set<string>, root: Element, extArgs: seq<string>): Run {
    match ProduceRoot(root, extArgs)
    case Err(e) => Run(Err(e), dirs, [])
    case Ok(r) =>
      match Find(r, "build")
      case None => Run(Err(MissingSection("build")), dirs, [])
      case Some(section) => Walk(svn, env, dirs, Iter(section))
  }

  /** A template that cannot be filled in stops the build before any action is attempted. */
  lemma BuildNeedsTemplate(svn: SvnController, env: Env, dirs: set<string>, root: Element, extArgs: seq<string>)
    requires ProduceRoot(root, extArgs).Err?
    ensures Build(svn, env, dirs, root, extArgs) == Run(Err(ProduceRoot(root, extArgs).error), dirs, [])
  {
  }

  /** A templated root with no `build` child ends the build with an error, before any action. */
  lemma BuildNeedsSection(svn: SvnController, env: Env, dirs: set<string>, root: Element, extArgs: seq<string>)
    requires ProduceRoot(root, extArgs).Ok?
    requires forall c :: c in ProduceRoot(root, extArgs).value.children ==> c.tag != "build"
    ensures Build(svn, env, dirs, root, extArgs) == Run(Err(MissingSection("build")), dirs, [])
  {
  }

  /**
   * A successful build templated the root, found its first `build` child, and attempted exactly
   * the actions planned for that section in document order.
   */
  lemma BuildPerformsPlan(svn: SvnController, env: Env, dirs: set<string>, root: Element, extArgs: seq<string>)
    requires Build(svn, env, dirs, root, extArgs).result.Ok?
    ensures ProduceRoot(root, extArgs).Ok?
    ensures var r := ProduceRoot(root, extArgs).value;
      exists i :: 0 <= i < |r.children| && r.children[i].tag == "build"
        && (forall j :: 0 <= j < i ==> r.children[j].tag != "build")
        && Planned(env, Iter(r.children[i])) == Ok(Build(svn, env, dirs, root, extArgs).trace)
  {
    var r := ProduceRoot(root, extArgs).value;
    var section := Find(r, "build").value;
    WalkPerformsPlan(svn, env, dirs, Iter(section));
  }
}
