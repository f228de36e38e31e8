/** The two ways the sources acquire raw text: running a command and
    reading a file.  What each command or file yields is a fixed input;
    each object records, in order, what it was asked for, so that a source
    can state which commands it ran and which files it read. */
module Acquisition {
  import opened Wrappers

  /** ProcessRunnerInterface::execute. */
  class ProcessRunner {
    /** What each command yields: its output or the runner's error. */
    const outcome: string -> Result<string>
    /** The commands executed so far, oldest first. */
    var executed: seq<string>

    constructor(outcome: string -> Result<string>)
      ensures this.outcome == outcome && executed == []
    {
      this.outcome := outcome;
      executed := [];
    }

    method Execute(command: string) returns (r: Result<string>)
      modifies this
      ensures r == outcome(command)
      ensures executed == old(executed) + [command]
    {
      r := outcome(command);
      executed := executed + [command];
    }
  }

  /** FileReaderInterface::read. */
  class FileReader {
    /** What each path yields: its contents or the reader's error. */
    const contents: string -> Result<string>
    /** The paths read so far, oldest first. */
    var readPaths: seq<string>

    constructor(contents: string -> Result<string>)
      ensures this.contents == contents && readPaths == []
    {
      this.contents := contents;
      readPaths := [];
    }

    method Read(path: string) returns (r: Result<string>)
      modifies this
      ensures r == contents(path)
      ensures readPaths == old(readPaths) + [path]
    {
      r := contents(path);
      readPaths := readPaths + [path];
    }
  }
}
