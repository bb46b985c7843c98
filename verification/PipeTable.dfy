/** All the pipes of the kernel (Kernel/pipefs.c), found by name, over whole runs of do_pipe,
    write and read by any number of processes. */
module PipeTable {
  import opened Bytes
  import opened Options
  import opened MyMath
  import opened Pipe
  import opened PipeNames
  import opened Statuses

  /** What one pipe is for and what it holds. */
  datatype Channel = Channel(fromPid: nat, toPid: nat, contents: seq<byte>)

  datatype Call =
    | Open(fromPid: nat, toPid: nat)
    | Send(fromPid: nat, toPid: nat, message: seq<byte>)
    | Receive(fromPid: nat, toPid: nat)

  /** The oldest pipe between the two. */
  function FindFrom(cs: seq<Channel>, a: nat, b: nat, i: nat): (r: Option<nat>)
    requires i <= |cs|
    ensures r.Some? ==> i <= r.value < |cs| && cs[r.value].fromPid == a && cs[r.value].toPid == b
    ensures r.Some? ==> forall j | i <= j < r.value :: !(cs[j].fromPid == a && cs[j].toPid == b)
    ensures r == None ==> forall j | i <= j < |cs| :: !(cs[j].fromPid == a && cs[j].toPid == b)
    decreases |cs| - i
  {
    if i == |cs| then None
    else if cs[i].fromPid == a && cs[i].toPid == b then Some(i)
    else FindFrom(cs, a, b, i + 1)
  }

  function Find(cs: seq<Channel>, a: nat, b: nat): (r: Option<nat>)
    ensures r.Some? ==> r.value < |cs| && cs[r.value].fromPid == a && cs[r.value].toPid == b
    ensures r.Some? ==> forall j | 0 <= j < r.value :: !(cs[j].fromPid == a && cs[j].toPid == b)
    ensures r == None ==> forall j | 0 <= j < |cs| :: !(cs[j].fromPid == a && cs[j].toPid == b)
  {
    FindFrom(cs, a, b, 0)
  }

  /** getPipe: the oldest pipe of that name. */
  function NamedFrom(cs: seq<Channel>, name: seq<byte>, i: nat): (r: Option<nat>)
    requires i <= |cs|
    ensures r.Some? ==> i <= r.value < |cs| && Name(cs[r.value].fromPid, cs[r.value].toPid) == name
    ensures r.Some? ==> forall j | i <= j < r.value :: Name(cs[j].fromPid, cs[j].toPid) != name
    ensures r == None ==> forall j | i <= j < |cs| :: Name(cs[j].fromPid, cs[j].toPid) != name
    decreases |cs| - i
  {
    if i == |cs| then None
    else if Name(cs[i].fromPid, cs[i].toPid) == name then Some(i)
    else NamedFrom(cs, name, i + 1)
  }

  function Named(cs: seq<Channel>, name: seq<byte>): (r: Option<nat>)
    ensures r.Some? ==> r.value < |cs| && Name(cs[r.value].fromPid, cs[r.value].toPid) == name
    ensures r.Some? ==> forall j | 0 <= j < r.value :: Name(cs[j].fromPid, cs[j].toPid) != name
    ensures r == None ==> forall j | 0 <= j < |cs| :: Name(cs[j].fromPid, cs[j].toPid) != name
  {
    NamedFrom(cs, name, 0)
  }

  /** A pair's name leads to the pair's own pipe: no other pair has that name. */
  lemma NameFindsPair(cs: seq<Channel>, a: nat, b: nat)
    requires a <= INT_MAX && b <= INT_MAX
    requires forall i | 0 <= i < |cs| :: cs[i].fromPid <= INT_MAX && cs[i].toPid <= INT_MAX
    ensures Named(cs, Name(a, b)) == Find(cs, a, b)
  {
    forall i | 0 <= i < |cs| && Name(cs[i].fromPid, cs[i].toPid) == Name(a, b)
      ensures cs[i].fromPid == a && cs[i].toPid == b
    {
      NameIsInjective(cs[i].fromPid, cs[i].toPid, a, b);
    }
    hide Name;
  }

  /** The pair a pipe was made for finds a pipe, and the first of that name is the one. */
  lemma NamedIsFound(cs: seq<Channel>, name: seq<byte>)
    requires Named(cs, name).Some?
    requires forall i | 0 <= i < |cs| :: cs[i].fromPid <= INT_MAX && cs[i].toPid <= INT_MAX
    ensures var k := Named(cs, name).value; Find(cs, cs[k].fromPid, cs[k].toPid) == Some(k)
  {
    var k := Named(cs, name).value;
    NameFindsPair(cs, cs[k].fromPid, cs[k].toPid);
  }

  /** Bytes under way from a to b. */
  function Buffered(cs: seq<Channel>, a: nat, b: nat): seq<byte> {
    match Find(cs, a, b)
    case None => []
    case Some(k) => cs[k].contents
  }

  /** The part of a message there is room for. */
  function Accepted(contents: seq<byte>, message: seq<byte>): (r: seq<byte>)
    requires |contents| <= PIPE_BUF_SIZE
    ensures r <= message
  {
    message[..Min(|message|, PIPE_BUF_SIZE - |contents|)]
  }

  predicate Bounded(cs: seq<Channel>) {
    forall i | 0 <= i < |cs| :: |cs[i].contents| <= PIPE_BUF_SIZE
  }

  function After(cs: seq<Channel>, call: Call): (r: seq<Channel>)
    requires Bounded(cs)
    ensures Bounded(r)
  {
    match call
    case Open(a, b) => cs + [Channel(a, b, [])]
    case Send(a, b, message) =>
      (match Find(cs, a, b)
       case None => cs
       case Some(k) => cs[k := cs[k].(contents := cs[k].contents + Accepted(cs[k].contents, message))])
    case Receive(a, b) =>
      (match Find(cs, a, b)
       case None => cs
       case Some(k) => cs[k := cs[k].(contents := [])])
  }

  /** What the call takes from, and hands to, the pair (a, b). */
  function Taken(cs: seq<Channel>, call: Call, a: nat, b: nat): seq<byte>
    requires Bounded(cs)
  {
    if call.Send? && call.fromPid == a && call.toPid == b && Find(cs, a, b).Some?
    then Accepted(Buffered(cs, a, b), call.message) else []
  }

  function Handed(cs: seq<Channel>, call: Call, a: nat, b: nat): seq<byte> {
    if call.Receive? && call.fromPid == a && call.toPid == b then Buffered(cs, a, b) else []
  }

  function Run(cs: seq<Channel>, run: seq<Call>): (r: seq<Channel>)
    requires Bounded(cs)
    ensures Bounded(r)
    decreases |run|
  {
    if run == [] then cs else Run(After(cs, run[0]), run[1..])
  }

  function TakenIn(cs: seq<Channel>, run: seq<Call>, a: nat, b: nat): seq<byte>
    requires Bounded(cs)
    decreases |run|
  {
    if run == [] then [] else Taken(cs, run[0], a, b) + TakenIn(After(cs, run[0]), run[1..], a, b)
  }

  function HandedIn(cs: seq<Channel>, run: seq<Call>, a: nat, b: nat): seq<byte>
    requires Bounded(cs)
    decreases |run|
  {
    if run == [] then [] else Handed(cs, run[0], a, b) + HandedIn(After(cs, run[0]), run[1..], a, b)
  }

  lemma FindStays(cs: seq<Channel>, call: Call, a: nat, b: nat)
    requires Bounded(cs) && Find(cs, a, b).Some?
    ensures Find(After(cs, call), a, b) == Find(cs, a, b)
  {
  }

  lemma OthersUndisturbed(cs: seq<Channel>, call: Call, a: nat, b: nat)
    requires Bounded(cs) && Find(cs, a, b).Some? && (call.Open? || call.fromPid != a || call.toPid != b)
    ensures Buffered(After(cs, call), a, b) == Buffered(cs, a, b)
  {
    FindStays(cs, call, a, b);
  }

  lemma StepConserves(cs: seq<Channel>, call: Call, a: nat, b: nat)
    requires Bounded(cs)
    ensures Handed(cs, call, a, b) + Buffered(After(cs, call), a, b) == Buffered(cs, a, b) + Taken(cs, call, a, b)
  {
    if Find(cs, a, b) == None {
      assert Buffered(After(cs, call), a, b) == [];
    } else if call.Open? || call.fromPid != a || call.toPid != b {
      OthersUndisturbed(cs, call, a, b);
    } else {
      FindStays(cs, call, a, b);
    }
  }

  /** FIFO between every pair of processes, whatever the others do: the bytes handed over so
      far, then those still buffered, are those buffered at first and then the accepted
      prefixes in the order sent. */
  lemma {:induction false} PipesAreFifo(cs: seq<Channel>, run: seq<Call>, a: nat, b: nat)
    requires Bounded(cs)
    ensures HandedIn(cs, run, a, b) + Buffered(Run(cs, run), a, b) == Buffered(cs, a, b) + TakenIn(cs, run, a, b)
    decreases |run|
  {
    hide Handed, Taken, Buffered, After;
    if run == [] {
      assert HandedIn(cs, run, a, b) == [] == TakenIn(cs, run, a, b);
    } else {
      var next, rest := After(cs, run[0]), run[1..];
      StepConserves(cs, run[0], a, b);
      PipesAreFifo(next, rest, a, b);
      calc {
        HandedIn(cs, run, a, b) + Buffered(Run(cs, run), a, b);
        Handed(cs, run[0], a, b) + (HandedIn(next, rest, a, b) + Buffered(Run(next, rest), a, b));
        Handed(cs, run[0], a, b) + (Buffered(next, a, b) + TakenIn(next, rest, a, b));
        (Handed(cs, run[0], a, b) + Buffered(next, a, b)) + TakenIn(next, rest, a, b);
        (Buffered(cs, a, b) + Taken(cs, run[0], a, b)) + TakenIn(next, rest, a, b);
        Buffered(cs, a, b) + TakenIn(cs, run, a, b);
      }
    }
  }

  method ReceiverPid(name: seq<byte>, ghost a: nat, ghost b: nat) returns (pid: int)
    requires a <= INT_MAX && b <= INT_MAX && 0 in name && CString(name) == Name(a, b)
    ensures pid == b
  {
    ReceiverOfName(a, b);
    pid := GetReceiverPid(name);
  }

  class Pipes {
    var pipeList: seq<PipeNode>
    ghost var channels: seq<Channel>

    ghost predicate Separate()
      reads `pipeList
    {
      forall i, j | 0 <= i < j < |pipeList| ::
        pipeList[i] != pipeList[j] && pipeList[i].buffer != pipeList[j].buffer
    }

    ghost predicate Shown(i: nat)
      requires i < |pipeList| == |channels|
      reads this, pipeList[i], pipeList[i].buffer
    {
      && pipeList[i].Valid() && pipeList[i].contents == channels[i].contents
      && channels[i].fromPid <= INT_MAX && channels[i].toPid <= INT_MAX
      && 0 in pipeList[i].name && CString(pipeList[i].name) == Name(channels[i].fromPid, channels[i].toPid)
    }

    ghost predicate Valid()
      reads this, pipeList, set p | p in pipeList :: p.buffer
    {
      |pipeList| == |channels| && Separate() && forall i | 0 <= i < |pipeList| :: Shown(i)
    }

    lemma ValidIsBounded()
      requires Valid()
      ensures Bounded(channels)
    {
      forall i | 0 <= i < |channels| ensures |channels[i].contents| <= PIPE_BUF_SIZE {
        assert Shown(i);
      }
    }

    constructor ()
      ensures Valid() && channels == []
    {
      pipeList, channels := [], [];
    }

    method DoPipe(fromPid: nat, toPid: nat) returns (name: seq<byte>)
      requires Valid() && fromPid <= INT_MAX && toPid <= INT_MAX
      modifies this
      ensures Valid() && channels == old(channels) + [Channel(fromPid, toPid, [])]
      ensures 0 in name && CString(name) == Name(fromPid, toPid)
    {
      var text := new byte[NAME_SIZE];
      CreateName(fromPid, toPid, text);
      name := text[..];
      var pipe := new PipeNode(name);
      label appending:
      pipeList, channels := pipeList + [pipe], channels + [Channel(fromPid, toPid, [])];
      forall i | 0 <= i < |pipeList| ensures Shown(i) {
        if i < |pipeList| - 1 {
          assert old@appending(Shown(i));
        }
      }
    }

    lemma PidsFit()
      requires Valid()
      ensures forall i | 0 <= i < |channels| :: channels[i].fromPid <= INT_MAX && channels[i].toPid <= INT_MAX
    {
      forall i | 0 <= i < |channels| ensures channels[i].fromPid <= INT_MAX && channels[i].toPid <= INT_MAX {
        assert Shown(i);
      }
    }

    /** The oldest pipe of that name, for any string whatever; -1 for NULL. */
    method GetPipe(name: seq<byte>) returns (k: int)
      requires Valid() && 0 in name
      ensures match Named(channels, CString(name)) case None => k == -1 case Some(i) => k == i
    {
      hide CString, Holds, Name;
      k := 0;
      while k < |pipeList|
        invariant 0 <= k <= |pipeList| && Named(channels, CString(name)) == NamedFrom(channels, CString(name), k)
      {
        assert Shown(k);
        var equal := EqualName(name, pipeList[k].name);
        if equal {
          return;
        }
        k := k + 1;
      }
      k := -1;
    }

    /** Nothing for an unknown name. Otherwise returns whom it wakes, once for every byte accepted. */
    method WriteToPipe(name: seq<byte>, buff: seq<byte>) returns (pid: int, wakeups: nat)
      requires Valid() && 0 in name && 0 in buff
      modifies this`channels, pipeList, set p | p in pipeList :: p.buffer
      ensures Valid() && Bounded(old(channels))
      ensures match Named(old(channels), CString(name))
              case None => channels == old(channels) && wakeups == 0
              case Some(k) =>
                var (a, b) := (old(channels)[k].fromPid, old(channels)[k].toPid);
                && channels == After(old(channels), Send(a, b, CString(buff)))
                && wakeups == |Taken(old(channels), Send(a, b, CString(buff)), a, b)| && pid == b
    {
      hide CString, Holds, Name, NamedFrom, FindFrom;
      ValidIsBounded();
      PidsFit();
      pid, wakeups := 0, 0;
      var k := GetPipe(name);
      if k == -1 {
        return;
      }
      NamedIsFound(channels, CString(name));
      ghost var a, b := channels[k].fromPid, channels[k].toPid;
      pid := ReceiverPid(name, a, b);
      assert Shown(k);
      wakeups := pipeList[k].Write(buff);
      channels := After(channels, Send(a, b, CString(buff)));
      OthersShown(k);
    }

    /** Nothing for an unknown name. On an empty pipe, returns which thread it puts to sleep: of
        the receiving process, whoever calls, the one numbered like the caller's thread. */
    method ReadFromPipe(name: seq<byte>, currentPthread: int) returns (delivered: seq<byte>, sleeper: Option<Tid>)
      requires Valid() && 0 in name
      modifies this`channels, pipeList, set p | p in pipeList :: p.buffer
      ensures Valid() && Bounded(old(channels))
      ensures match Named(old(channels), CString(name))
              case None => channels == old(channels) && delivered == [] && sleeper == None
              case Some(k) =>
                var (a, b) := (old(channels)[k].fromPid, old(channels)[k].toPid);
                && channels == After(old(channels), Receive(a, b)) && delivered == Buffered(old(channels), a, b)
                && sleeper == if delivered == [] then Some(Tid(b, currentPthread)) else None
    {
      hide CString, Holds, Name, NamedFrom, FindFrom;
      ValidIsBounded();
      PidsFit();
      delivered, sleeper := [], None;
      var k := GetPipe(name);
      if k == -1 {
        return;
      }
      NamedIsFound(channels, CString(name));
      ghost var a, b := channels[k].fromPid, channels[k].toPid;
      assert Shown(k);
      var blocked: bool;
      delivered, blocked := pipeList[k].Read();
      if blocked {
        var pid := ReceiverPid(name, a, b);
        sleeper := Some(Tid(pid, currentPthread));
      }
      channels := After(channels, Receive(a, b));
      OthersShown(k);
    }

    /** After a change to pipe k alone, the others are as they were. */
    twostate lemma OthersShown(k: nat)
      requires old(Valid()) && k < |channels| == |pipeList| && pipeList == old(pipeList)
      requires |channels| == |old(channels)| && forall i | 0 <= i < |channels| && i != k :: channels[i] == old(channels)[i]
      requires forall i | 0 <= i < |pipeList| && i != k :: unchanged(pipeList[i]) && unchanged(pipeList[i].buffer)
      requires Shown(k)
      ensures Valid()
    {
      forall i | 0 <= i < |pipeList| ensures Shown(i) {
        if i != k {
          assert old(Shown(i));
        }
      }
    }
  }
}
