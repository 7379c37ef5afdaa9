/**
 * What the runner sees of the machine it runs on. Every query the source makes of the operating
 * system (glob, listdir, mkdir, the exit status and output of a child process, the directories a
 * child process creates) is an oracle here; the one piece of host state the model threads through
 * is the set of existing directories.
 */
module Host {
  import opened Wrappers

  /** The exceptions the core can raise, by cause. Each one ends the run. */
  datatype Error =
    | ExternalToolFailure(command: seq<string>)  // subprocess.run(..., check=True) saw a non-zero exit
    | NoGlobMatch(pattern: string)              // glob.glob(pattern)[0] on an empty match list
    | FilesystemIOFailure(path: string)         // an OSError from mkdir, listdir or shutil.copy
    | ExecutableFailure(path: string, args: string)  // a build step exited non-zero
    | MissingAttribute(key: string)             // a KeyError on a node's attributes
    | MissingSection(tag: string)               // Element.find(tag) gave None
    | MalformedExternalArgument(arg: string)    // a key=value argument that is not one '=' split
    | TemplateKeyMissing(key: string)           // str.format with a key absent from the context
    | TemplatePositional(field: string)         // str.format with a positional field, no positional args
    | TemplateUnsupported(field: string)        // a field using attribute, index, conversion or spec syntax
    | TemplateSyntax                            // str.format on a stray '}', an unclosed '{' or a '{' in a field

  type Outcome<T> = Result<T, Error>

  datatype Env = Env(
    glob: string -> seq<string>,               // glob.glob: the matches of a pattern, in glob order
    listDir: string -> Option<seq<string>>,    // os.listdir, None when it raises
    mkdirOk: string -> bool,                   // whether os.mkdir succeeds
    exitOk: seq<string> -> bool,               // exit status 0 for an argv
    stdout: seq<string> -> seq<string>,        // the lines an argv writes to standard output
    made: seq<string> -> set<string>,          // the directories an argv that exits 0 leaves on disk
    execOk: (string, string) -> bool,          // a build executable with its argument string succeeds
    execMade: (string, string) -> set<string>  // the directories such a successful run leaves on disk
  )
}
