/** Shared vocabulary: optional values, what the command runner returns,
    the errors the core reports and how an operation can end. */
module Base {

  datatype Option<T> = None | Some(value: T)

  /** An argument vector for `git`. */
  type Argv = seq<string>

  /** What the command runner gives back for one argument vector: the
      command's standard output, or the reason it failed. */
  datatype RunResult = Output(text: string) | RunError(cause: string)

  /** The arguments of `git cat-file -p <sha1>`: pretty-print an object. */
  function PrettyPrint(sha1: string): Argv {
    ["cat-file", "-p", sha1]
  }

  /** The arguments of `git cat-file -t <sha1>`: report an object's kind. */
  function KindOf(sha1: string): Argv {
    ["cat-file", "-t", sha1]
  }

  /** The recoverable errors of the core, each with the context that
      identifies the object or file it concerns. Their message texts are
      not modelled. */
  datatype Error =
    | CommandFailed(argv: Argv, cause: string)
    | NoTabAt52(treeSha1: string, line: string)
    | InChildTree(childSha1: string, inner: Error)
    | InCommitTree(commitSha1: string, treeSha1: string, inner: Error)
    | BadIndexLine(packFile: string, line: string)
    | PackSetupFailed(packFile: string, cause: string)
    | PackFinishFailed(packFile: string, causes: seq<string>)

  /** How a state-changing operation ends: normally, with a reported
      error, or with a Go panic (a broken assumption about git's output,
      which the program does not recover from). */
  datatype Outcome = Done | Failed(error: Error) | Panicked(why: string)
}
