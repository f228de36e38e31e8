/** The macOS memory source: runs vm_stat, then `sysctl -n hw.memsize`,
    then `sysctl -n vm.pagesize`, stopping at the first failure, and
    hands the three outputs to the vm_stat parser, which is not part of
    this model and is a parameter. */
module MacOsVmStatMemorySource {
  import opened Wrappers
  import opened PhpText
  import opened Memory
  import opened Acquisition

  const VmStatCommand := "vm_stat"
  const MemsizeCommand := "sysctl -n hw.memsize"
  const PageSizeCommand := "sysctl -n vm.pagesize"

  /** The three commands in the order they are run. */
  const Order := [VmStatCommand, MemsizeCommand, PageSizeCommand]

  /** The page size used when sysctl reports 0 or no number. */
  const DefaultPageSize := 4096

  /** The page size read from sysctl's output, 4096 in place of 0. */
  function PageSizeOf(output: string): int {
    var pageSize := IntCast(Trim(output));
    if pageSize == 0 then DefaultPageSize else pageSize
  }

  /** What read returns, given what each command yields and the parser. */
  function Read(outcome: string -> Result<string>, parse: (string, string, int) -> Result<MemorySnapshot>): Result<MemorySnapshot> {
    var vmStat := outcome(VmStatCommand);
    if vmStat.Failure? then Failure(vmStat.error)
    else
      var hwMemsize := outcome(MemsizeCommand);
      if hwMemsize.Failure? then Failure(hwMemsize.error)
      else
        var pageSize := outcome(PageSizeCommand);
        if pageSize.Failure? then Failure(pageSize.error)
        else parse(vmStat.value, Trim(hwMemsize.value), PageSizeOf(pageSize.value))
  }

  /** The commands read runs: each one only when the one before it
      succeeded. */
  function Commands(outcome: string -> Result<string>): seq<string> {
    if outcome(VmStatCommand).Failure? then Order[..1]
    else if outcome(MemsizeCommand).Failure? then Order[..2]
    else Order
  }

  method ReadMemory(runner: ProcessRunner, parse: (string, string, int) -> Result<MemorySnapshot>) returns (r: Result<MemorySnapshot>)
    modifies runner
    ensures r == Read(runner.outcome, parse)
    ensures runner.executed == old(runner.executed) + Commands(runner.outcome)
  {
    var vmStatResult := runner.Execute(VmStatCommand);
    if vmStatResult.Failure? {
      return Failure(vmStatResult.error);
    }
    var hwMemsizeResult := runner.Execute(MemsizeCommand);
    if hwMemsizeResult.Failure? {
      return Failure(hwMemsizeResult.error);
    }
    var pageSizeResult := runner.Execute(PageSizeCommand);
    if pageSizeResult.Failure? {
      return Failure(pageSizeResult.error);
    }
    var pageSize := IntCast(Trim(pageSizeResult.value));
    if pageSize == 0 {
      pageSize := DefaultPageSize;
    }
    r := parse(vmStatResult.value, Trim(hwMemsizeResult.value), pageSize);
  }

  /** The commands run are a prefix of vm_stat, hw.memsize, vm.pagesize;
      every one but the last succeeded, and when read fails it is with
      the last one's error, unchanged. */
  lemma CommandsInOrder(outcome: string -> Result<string>, parse: (string, string, int) -> Result<MemorySnapshot>)
    ensures var cs := Commands(outcome);
      && 1 <= |cs| <= 3 && cs == Order[..|cs|]
      && (forall k :: 0 <= k < |cs| - 1 ==> outcome(cs[k]).Success?)
      && (outcome(cs[|cs| - 1]).Failure? ==> Read(outcome, parse) == Failure(outcome(cs[|cs| - 1]).error))
      && (|cs| < 3 ==> outcome(cs[|cs| - 1]).Failure?)
  {
    assert Order[..3] == Order;
  }

  /** The first command to fail decides the error; the ones after it
      never run. */
  lemma FirstFailureWins(outcome: string -> Result<string>, parse: (string, string, int) -> Result<MemorySnapshot>, i: nat)
    requires i < 3 && outcome(Order[i]).Failure?
    requires forall k :: 0 <= k < i ==> outcome(Order[k]).Success?
    ensures Read(outcome, parse) == Failure(outcome(Order[i]).error)
    ensures Commands(outcome) == Order[..i + 1]
  {
    assert Order[0] == VmStatCommand && Order[1] == MemsizeCommand && Order[2] == PageSizeCommand;
    if i == 0 {
      assert Commands(outcome) == Order[..1];
    } else if i == 1 {
      assert outcome(VmStatCommand).Success?;
      assert Commands(outcome) == Order[..2];
    } else {
      assert outcome(VmStatCommand).Success? && outcome(MemsizeCommand).Success?;
      assert Order[..3] == Order;
    }
  }

  /** When all three commands succeed, the parser gets vm_stat's output
      as it is, the memory size trimmed and the page size, and its
      result is returned as it is. */
  lemma AllCommandsSucceed(outcome: string -> Result<string>, parse: (string, string, int) -> Result<MemorySnapshot>)
    requires outcome(VmStatCommand).Success? && outcome(MemsizeCommand).Success? && outcome(PageSizeCommand).Success?
    ensures Read(outcome, parse) == parse(outcome(VmStatCommand).value, Trim(outcome(MemsizeCommand).value),
                                          PageSizeOf(outcome(PageSizeCommand).value))
    ensures Commands(outcome) == Order
  {
  }

  /** A number sysctl prints is the page size as it is, except that 0
      gives 4096. */
  lemma PageSizeOfNumber(n: nat)
    ensures PageSizeOf(NatToString(n) + "\n") == if n == 0 then DefaultPageSize else n
  {
    var d := NatToString(n);
    TerminatedLine(d);
    IntCastOfDigits(d);
  }

  /** Output that is not a number gives 4096. */
  lemma PageSizeOfJunk(junk: string)
    requires junk != [] && !IsDigit(junk[0]) && junk[0] !in {'-', '+', '.'} && junk[0] !in PcreSpaces
    requires Trim(junk) == junk
    ensures PageSizeOf(junk) == DefaultPageSize
  {
    CastOfNonNumeric(junk);
  }
}
