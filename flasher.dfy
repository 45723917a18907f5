/**
 * The entry point of flasher.go: the usage check that decides between
 * uploading and tailing, and the search for the tools directory.
 */
module Flasher {
  import opened Wrappers
  import opened GoPath

  /**
   * The command-line configuration after flag parsing. The fields mirror the Go struct
   * `configuration`; the decisions modelled here read only `binary` and `tail`.
   */
  datatype Configuration = Configuration(
    board: string, port: string, binary: string, tools: string, skipTouch: bool,
    tail: bool, tailAppend: string, tailInactivity: int, tailReopen: bool, flashOffset: int)

  /** The exit status of the usage error. */
  const UsageStatus := 2

  /**
   * What `main` goes on to do: exit with the usage status, stop because the
   * binary does not exist, or run the upload and/or the tail.
   */
  datatype Startup = UsageExit(status: int) | NoSuchBinary | Proceed(upload: bool, tail: bool)

  /**
   * Lines 154-163: the decision. `binaryExists` means that `os.Stat` on the
   * binary did not report that it does not exist; any other stat error lets
   * the program go on.
   */
  function Start(config: Configuration, binaryExists: bool): (r: Startup)
    ensures r.UsageExit? <==> config.binary == "" && !config.tail
    ensures r.UsageExit? ==> r.status == UsageStatus
    ensures r.NoSuchBinary? <==> config.binary != "" && !binaryExists
    ensures r.Proceed? ==> (r.upload <==> config.binary != "") && (r.tail <==> config.tail)
    ensures r.Proceed? ==> r.upload || r.tail
  {
    if config.binary == "" && !config.tail then UsageExit(UsageStatus)
    else if config.binary != "" && !binaryExists then NoSuchBinary
    else Proceed(config.binary != "", config.tail)
  }

  /** Lines 44-48: where to look for the tools, relative to the executable's directory, in order. */
  function Candidates(exeDir: string): (c: seq<string>)
    ensures |c| == 3 && c[2] == "./tools"
  {
    [Join(exeDir, "tools"), Join(Dir(exeDir), "lib/flasher"), "./tools"]
  }

  /**
   * `searchForTools`: an explicit tools path wins; otherwise the first
   * candidate that exists, or nothing (the program panics). `present(p)`
   * means that `os.Stat(p)` did not report that `p` does not exist.
   */
  method SearchForTools(tools: string, exeDir: string, present: string -> bool) returns (r: Option<string>)
    ensures tools != "" ==> r == Some(tools)
    ensures tools == "" && r.Some? ==>
      exists i :: 0 <= i < 3 && Candidates(exeDir)[i] == r.value && present(r.value) &&
        forall j :: 0 <= j < i ==> !present(Candidates(exeDir)[j])
    ensures tools == "" && r.None? ==> forall i :: 0 <= i < 3 ==> !present(Candidates(exeDir)[i])
  {
    if tools != "" {
      return Some(tools);
    }
    var candidates := Candidates(exeDir);
    for i := 0 to |candidates|
      invariant forall j :: 0 <= j < i ==> !present(candidates[j])
    {
      if present(candidates[i]) {
        return Some(candidates[i]);
      }
    }
    return None;
  }
}
