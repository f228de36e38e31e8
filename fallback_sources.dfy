/** The fallback sources for CPU and storage metrics: the sources are
    tried in order until one succeeds; when none does, their errors are
    reported together, in order.  A source is reduced to its class name
    and the outcome its read gives. */
module FallbackSources {
  import opened Wrappers
  import opened PhpText
  import Seqs

  datatype Source<T> = Source(className: string, outcome: Result<T>)

  const CpuFailurePrefix := "All CPU metrics sources failed: "
  const StorageFailurePrefix := "All storage metrics sources failed: "

  function Succeeds<T>(s: Source<T>): bool { s.outcome.Success? }

  /** 'Source <index> (<class>): <message>' for a source that failed. */
  function Entry<T>(index: nat, s: Source<T>): string {
    "Source " + NatToString(index) + " (" + s.className + "): "
      + (if s.outcome.Failure? then s.outcome.error.message else "")
  }

  /** The entries of the sources, one per source, in order. */
  function Entries<T>(sources: seq<Source<T>>): seq<string> {
    seq(|sources|, i requires 0 <= i < |sources| => Entry(i, sources[i]))
  }

  /** What read returns: the first success as it is, or an error
      listing every source's failure. */
  function Chain<T>(prefix: string, sources: seq<Source<T>>): Result<T> {
    match Seqs.FirstIndex(sources, Succeeds)
    case Some(i) => sources[i].outcome
    case None => Failure(Error(SystemMetricsError, prefix + Join("; ", Entries(sources))))
  }

  /** How many sources read calls: up to and including the first that
      succeeds, or all of them. */
  function Tried<T>(sources: seq<Source<T>>): nat {
    match Seqs.FirstIndex(sources, Succeeds)
    case Some(i) => i + 1
    case None => |sources|
  }

  /** The loop of read.  `tried` counts the sources whose read was
      called. */
  method ReadChain<T>(prefix: string, sources: seq<Source<T>>) returns (r: Result<T>, ghost tried: nat)
    ensures r == Chain(prefix, sources)
    ensures tried == Tried(sources)
  {
    var errors: seq<string> := [];
    var index := 0;
    tried := 0;
    while index < |sources|
      invariant 0 <= index <= |sources| && tried == index
      invariant forall k :: 0 <= k < index ==> !Succeeds(sources[k])
      invariant errors == Entries(sources[..index])
    {
      var result := sources[index].outcome;
      tried := tried + 1;
      if result.Success? {
        return result, tried;
      }
      EntriesSnoc(sources, index);
      errors := errors + [Entry(index, sources[index])];
      index := index + 1;
    }
    assert sources[..index] == sources;
    r := Failure(Error(SystemMetricsError, prefix + Join("; ", errors)));
  }

  lemma EntriesSnoc<T>(sources: seq<Source<T>>, i: nat)
    requires i < |sources|
    ensures Entries(sources[..i + 1]) == Entries(sources[..i]) + [Entry(i, sources[i])]
  {
  }

  /** FallbackCpuMetricsSource::read. */
  method ReadCpu<T>(sources: seq<Source<T>>) returns (r: Result<T>, ghost tried: nat)
    ensures r == Chain(CpuFailurePrefix, sources)
    ensures tried == Tried(sources)
  {
    r, tried := ReadChain(CpuFailurePrefix, sources);
  }

  /** FallbackStorageMetricsSource::read. */
  method ReadStorage<T>(sources: seq<Source<T>>) returns (r: Result<T>, ghost tried: nat)
    ensures r == Chain(StorageFailurePrefix, sources)
    ensures tried == Tried(sources)
  {
    r, tried := ReadChain(StorageFailurePrefix, sources);
  }

  /** read succeeds exactly when some source does, and then gives the
      result of the first source that does, as it is. */
  lemma FirstSuccessWins<T>(prefix: string, sources: seq<Source<T>>, i: int)
    requires 0 <= i < |sources| && sources[i].outcome.Success?
    requires forall k :: 0 <= k < i ==> sources[k].outcome.Failure?
    ensures Chain(prefix, sources) == sources[i].outcome
    ensures Tried(sources) == i + 1
  {
    var j := Seqs.FirstIndex(sources, Succeeds).value;
    assert Succeeds(sources[i]);
    assert !(j < i) && !(i < j);
  }

  /** read succeeds exactly when some source succeeds. */
  lemma SuccessIffSomeSource<T>(prefix: string, sources: seq<Source<T>>)
    ensures Chain(prefix, sources).Success? <==> exists i :: 0 <= i < |sources| && sources[i].outcome.Success?
  {
    if Seqs.FirstIndex(sources, Succeeds).None? {
      assert forall i :: 0 <= i < |sources| ==> !Succeeds(sources[i]);
    }
  }

  /** When every source fails, all of them are read and the message is the
      prefix followed by one entry per source, in order, joined by "; ";
      an empty list gives the prefix alone. */
  lemma AllFailed<T>(prefix: string, sources: seq<Source<T>>)
    requires forall k :: 0 <= k < |sources| ==> sources[k].outcome.Failure?
    ensures Chain(prefix, sources) == Failure(Error(SystemMetricsError, prefix + Join("; ", Entries(sources))))
    ensures Tried(sources) == |sources|
    ensures |Entries(sources)| == |sources|
    ensures forall k :: 0 <= k < |sources| ==>
      Entries(sources)[k] == "Source " + NatToString(k) + " (" + sources[k].className + "): " + sources[k].outcome.error.message
    ensures sources == [] ==> Chain(prefix, sources) == Failure(Error(SystemMetricsError, prefix))
  {
    assert forall k :: 0 <= k < |sources| ==> !Succeeds(sources[k]);
    if sources == [] {
      assert prefix + "" == prefix;
    }
  }

  /** Sources after the first success are never read: whatever follows
      it changes nothing. */
  lemma LaterSourcesIgnored<T>(prefix: string, sources: seq<Source<T>>, more: seq<Source<T>>)
    requires Chain(prefix, sources).Success?
    ensures Chain(prefix, sources + more) == Chain(prefix, sources)
    ensures Tried(sources + more) == Tried(sources)
  {
    Seqs.FindAppend(sources, more, Succeeds);
    var i := Seqs.FirstIndex(sources, Succeeds).value;
    assert (sources + more)[i] == sources[i];
  }

  /** A chain of three: the first success among them, in order, or a
      failure when all three fail. */
  lemma FirstOfThree<T>(prefix: string, ss: seq<Source<T>>)
    requires |ss| == 3
    ensures ss[0].outcome.Success? ==> Chain(prefix, ss) == ss[0].outcome
    ensures ss[0].outcome.Failure? && ss[1].outcome.Success? ==> Chain(prefix, ss) == ss[1].outcome
    ensures ss[0].outcome.Failure? && ss[1].outcome.Failure? && ss[2].outcome.Success? ==> Chain(prefix, ss) == ss[2].outcome
    ensures ss[0].outcome.Failure? && ss[1].outcome.Failure? && ss[2].outcome.Failure? ==> Chain(prefix, ss).Failure?
  {
    if ss[0].outcome.Success? {
      FirstSuccessWins(prefix, ss, 0);
    } else if ss[1].outcome.Success? {
      FirstSuccessWins(prefix, ss, 1);
    } else if ss[2].outcome.Success? {
      FirstSuccessWins(prefix, ss, 2);
    } else {
      SuccessIffSomeSource(prefix, ss);
    }
  }

  /** A chain of two: the first success wins; the chain fails only when
      both fail. */
  lemma FirstOfTwo<T>(prefix: string, ss: seq<Source<T>>)
    requires |ss| == 2
    ensures ss[0].outcome.Success? ==> Chain(prefix, ss) == ss[0].outcome
    ensures ss[0].outcome.Failure? && ss[1].outcome.Success? ==> Chain(prefix, ss) == ss[1].outcome
    ensures Chain(prefix, ss).Success? <==> ss[0].outcome.Success? || ss[1].outcome.Success?
  {
    if ss[0].outcome.Success? {
      FirstSuccessWins(prefix, ss, 0);
    } else if ss[1].outcome.Success? {
      FirstSuccessWins(prefix, ss, 1);
    } else {
      SuccessIffSomeSource(prefix, ss);
    }
  }
}
