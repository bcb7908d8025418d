/**
 The CT-API context table of ctapi.cpp (the sequential build): opening, using and closing terminals,
 across every failure exit and the loss of a device.
 */
module CtApi {
  import opened Bytes

  const INVALID_CTN: nat := 0xffff

  /** The three handles a context may own. */
  datatype Context = Context(ctn: nat, port: nat, reader: bool, oldEcom: bool, ppa: bool)

  datatype Kind = KindReader | KindEcom | KindPpa

  function Owned(c: Context): nat {
    (if c.reader then 1 else 0) + (if c.oldEcom then 1 else 0) + (if c.ppa then 1 else 0)
  }

  function Opened(ctn: nat, port: nat, kind: Kind): Context {
    Context(ctn, port, kind == KindReader, kind == KindEcom, kind == KindPpa)
  }

  /** Handles owned by all contexts together. */
  function AllOwned(cs: seq<Context>): nat {
    if cs == [] then 0 else AllOwned(cs[..|cs| - 1]) + Owned(cs[|cs| - 1])
  }

  predicate DistinctCtns(cs: seq<Context>) {
    forall i, j :: 0 <= i < j < |cs| ==> cs[i].ctn != cs[j].ctn
  }

  /** A port number above 0 stands for one context only. */
  predicate DistinctPorts(cs: seq<Context>) {
    forall i, j :: 0 <= i < j < |cs| && cs[i].port != 0 ==> cs[i].port != cs[j].port
  }

  predicate SingleBackends(cs: seq<Context>) {
    forall i :: 0 <= i < |cs| ==> Owned(cs[i]) <= 1 && cs[i].ctn != INVALID_CTN
  }

  predicate Consistent(cs: seq<Context>) {
    DistinctCtns(cs) && DistinctPorts(cs) && SingleBackends(cs)
  }

  /** A C `int` returned as `int8_t`. */
  function Narrow(rv: int): int { (rv + 128) % 256 - 128 }

  /** What the system answers while a context is being grown. */
  datatype Environment =
    Environment(initOk: bool, scanOk: bool, found: bool, kind: Kind, openError: int, firstReply: int)

  lemma {:induction false} OwnedConcat(a: seq<Context>, b: seq<Context>)
    ensures AllOwned(a + b) == AllOwned(a) + AllOwned(b)
  {
    if b == [] {
      assert a + b == a;
    } else {
      assert (a + b)[..|a + b| - 1] == a + b[..|b| - 1];
      OwnedConcat(a, b[..|b| - 1]);
    }
  }

  lemma OwnedAt(cs: seq<Context>, k: nat, c: Context)
    requires k < |cs|
    ensures AllOwned(cs) == AllOwned(cs[..k] + cs[k + 1..]) + Owned(cs[k])
    ensures AllOwned(cs[k := c]) == AllOwned(cs) - Owned(cs[k]) + Owned(c)
  {
    hide Owned;
    OwnedOne(cs[k]);
    OwnedOne(c);
    OwnedConcat(cs[..k], cs[k + 1..]);
    OwnedConcat(cs[..k], [cs[k]]);
    OwnedConcat(cs[..k] + [cs[k]], cs[k + 1..]);
    OwnedConcat(cs[..k], [c]);
    OwnedConcat(cs[..k] + [c], cs[k + 1..]);
    assert cs == cs[..k] + [cs[k]] + cs[k + 1..] && cs[k := c] == cs[..k] + [c] + cs[k + 1..];
  }

  lemma OwnedOne(c: Context)
    ensures AllOwned([c]) == Owned(c)
  {
    assert [c][..0] == [];
  }

  // ----- what the calls do to the table -----

  /** The calls of the interface; `port` is 0 when a terminal is grown by its device name. */
  datatype Call =
    | Init(ctn: nat, port: nat, byName: bool, env: Environment)
    | Data(ctn: nat, reply: int)
    | Close(ctn: nat)

  predicate IsOpen(cs: seq<Context>, ctn: nat) { exists i :: 0 <= i < |cs| && cs[i].ctn == ctn }
  predicate PortTaken(cs: seq<Context>, port: nat) { exists i :: 0 <= i < |cs| && cs[i].port == port }

  /** No way out of `_init_common1` but the last is taken. */
  predicate Opens(cs: seq<Context>, ctn: nat, port: nat, env: Environment) {
    && env.initOk && env.scanOk && ctn != INVALID_CTN && !IsOpen(cs, ctn)
    && (port != 0 ==> !PortTaken(cs, port) && env.found)
    && env.openError == 0
  }

  /** An answer that is neither success nor one of the two errors of the terminal itself. */
  predicate IsLoss(reply: int) { reply != 0 && reply != -1 && reply != -11 }

  function Bereft(c: Context): Context { c.(reader := false, oldEcom := false, ppa := false) }

  function Lose(cs: seq<Context>, ctn: nat): (r: seq<Context>)
    ensures |r| == |cs| && forall i :: 0 <= i < |cs| ==> r[i] == if cs[i].ctn == ctn then Bereft(cs[i]) else cs[i]
  {
    if cs == [] then []
    else Lose(cs[..|cs| - 1], ctn) + [if cs[|cs| - 1].ctn == ctn then Bereft(cs[|cs| - 1]) else cs[|cs| - 1]]
  }

  function Without(cs: seq<Context>, ctn: nat): seq<Context> {
    if cs == [] then []
    else Without(cs[..|cs| - 1], ctn) + if cs[|cs| - 1].ctn == ctn then [] else [cs[|cs| - 1]]
  }

  function Next(cs: seq<Context>, call: Call): seq<Context> {
    match call
    case Init(ctn, port, byName, env) =>
      var pn := if byName then 0 else port;
      if (byName || port != 0) && Opens(cs, ctn, pn, env) && env.firstReply == 0
      then cs + [Opened(ctn, pn, env.kind)]
      else cs
    case Data(ctn, reply) => if IsLoss(reply) then Lose(cs, ctn) else cs
    case Close(ctn) => Without(cs, ctn)
  }

  function Run(cs: seq<Context>, calls: seq<Call>): seq<Context> {
    if calls == [] then cs else Next(Run(cs, calls[..|calls| - 1]), calls[|calls| - 1])
  }

  /** A terminal is opened exactly when every condition holds, and then it stands last in the table with its backend. */
  lemma InitTold(cs: seq<Context>, ctn: nat, port: nat, byName: bool, env: Environment)
    ensures Next(cs, Init(ctn, port, byName, env)) ==
      if && (byName || port > 0) && ctn != 65535 && env.initOk && env.scanOk
         && (forall i :: 0 <= i < |cs| ==> cs[i].ctn != ctn)
         && (byName || (env.found && forall i :: 0 <= i < |cs| ==> cs[i].port != port))
         && env.openError == 0 && env.firstReply == 0
      then cs + [Context(ctn, if byName then 0 else port, env.kind.KindReader?, env.kind.KindEcom?, env.kind.KindPpa?)]
      else cs
  {
  }

  /** Results 0, -1 and -11 change nothing; any other takes every handle from the context, and from no other. */
  lemma DataTold(cs: seq<Context>, ctn: nat, reply: int)
    ensures var after := Next(cs, Data(ctn, reply));
      && |after| == |cs|
      && forall i :: 0 <= i < |cs| ==>
           after[i] ==
             if cs[i].ctn == ctn && reply != 0 && reply != -1 && reply != -11
             then Context(ctn, cs[i].port, false, false, false)
             else cs[i]
  {
    hide Lose;
  }

  lemma {:induction false} WithoutIsAbsent(cs: seq<Context>, ctn: nat)
    ensures !IsOpen(Without(cs, ctn), ctn)
    ensures !IsOpen(cs, ctn) ==> Without(cs, ctn) == cs
  {
    if cs != [] {
      var front := cs[..|cs| - 1];
      WithoutIsAbsent(front, ctn);
      if !IsOpen(cs, ctn) {
        assert front + [cs[|cs| - 1]] == cs;
      }
    }
  }

  /** At most one context has the number, so taking it out removes exactly that one. */
  lemma {:induction false} WithoutAt(cs: seq<Context>, k: nat)
    requires k < |cs| && DistinctCtns(cs)
    ensures Without(cs, cs[k].ctn) == cs[..k] + cs[k + 1..]
    decreases |cs|
  {
    var ctn, front, last := cs[k].ctn, cs[..|cs| - 1], cs[|cs| - 1];
    if k == |cs| - 1 {
      WithoutIsAbsent(front, ctn);
      assert !IsOpen(front, ctn);
    } else {
      WithoutAt(front, k);
      assert cs[k + 1..] == front[k + 1..] + [last];
    }
  }

  /** A number that is not open is neither lost nor closed. */
  lemma NotOpen(cs: seq<Context>, after: seq<Context>, ctn: nat)
    requires !IsOpen(cs, ctn) && (after == cs || after == Lose(cs, ctn))
    ensures after == cs && Without(after, ctn) == cs
  {
    hide Lose;
    WithoutIsAbsent(cs, ctn);
    assert Lose(cs, ctn) == cs;
  }

  lemma LoseAt(cs: seq<Context>, k: nat)
    requires k < |cs| && DistinctCtns(cs)
    ensures Lose(cs, cs[k].ctn) == cs[k := Bereft(cs[k])]
  {
    hide Lose;
  }

  lemma RemovalConsistent(cs: seq<Context>, k: nat)
    requires k < |cs| && Consistent(cs)
    ensures Consistent(cs[..k] + cs[k + 1..])
  {
  }

  lemma AppendConsistent(cs: seq<Context>, ctn: nat, port: nat, env: Environment)
    requires Consistent(cs) && Opens(cs, ctn, port, env)
    ensures Consistent(cs + [Opened(ctn, port, env.kind)])
  {
    var r := cs + [Opened(ctn, port, env.kind)];
    forall i, j | 0 <= i < j < |r|
      ensures r[i].ctn != r[j].ctn && (r[i].port != 0 ==> r[i].port != r[j].port)
    {
      if j == |cs| { assert cs[i] == r[i]; }
    }
  }

  /** Every call keeps the table consistent. */
  lemma NextConsistent(cs: seq<Context>, call: Call)
    requires Consistent(cs)
    ensures Consistent(Next(cs, call))
  {
    hide Consistent, Lose, Without, Opens;
    match call
    case Init(ctn, port, byName, env) =>
      var pn := if byName then 0 else port;
      if Opens(cs, ctn, pn, env) { AppendConsistent(cs, ctn, pn, env); }
    case Data(ctn, reply) => LoseConsistent(cs, ctn);
    case Close(ctn) =>
      if k :| 0 <= k < |cs| && cs[k].ctn == ctn {
        assert DistinctCtns(cs) by { ConsistentParts(cs); }
        WithoutAt(cs, k);
        RemovalConsistent(cs, k);
      } else {
        WithoutIsAbsent(cs, ctn);
      }
  }

  lemma ConsistentParts(cs: seq<Context>)
    ensures Consistent(cs) <==> DistinctCtns(cs) && DistinctPorts(cs) && SingleBackends(cs)
  {
  }

  lemma LoseConsistent(cs: seq<Context>, ctn: nat)
    requires Consistent(cs)
    ensures Consistent(Lose(cs, ctn))
  {
    hide Lose;
  }

  /**
   Headline: over every run of openings, commands, losses and closings all context numbers are distinct,
   all port numbers above 0 are distinct, and each context owns at most one backend.
   */
  lemma {:induction false} RunConsistent(cs: seq<Context>, calls: seq<Call>)
    requires Consistent(cs)
    ensures Consistent(Run(cs, calls))
    decreases |calls|
  {
    hide Consistent, Next;
    if calls != [] {
      RunConsistent(cs, calls[..|calls| - 1]);
      NextConsistent(Run(cs, calls[..|calls| - 1]), calls[|calls| - 1]);
    }
  }

  /** Closing undoes opening, also when the device was lost in between. */
  lemma CloseUndoesInit(cs: seq<Context>, ctn: nat, port: nat, byName: bool, env: Environment, reply: int)
    requires Consistent(cs)
    requires Next(cs, Init(ctn, port, byName, env)) != cs
    ensures Run(cs, [Init(ctn, port, byName, env), Data(ctn, reply), Close(ctn)]) == cs
  {
    hide Consistent, Without, Lose, Run;
    var calls := [Init(ctn, port, byName, env), Data(ctn, reply), Close(ctn)];
    RunThree(cs, calls[0], calls[1], calls[2]);
    var grown := Next(cs, calls[0]);
    var used := Next(grown, calls[1]);
    NextConsistent(cs, calls[0]);
    NextConsistent(grown, calls[1]);
    assert !IsOpen(cs, ctn);
    forall i | 0 <= i < |cs| ensures used[i] == cs[i] { assert grown[i] == cs[i]; }
    assert used[..|cs|] == cs && used[|cs|].ctn == ctn;
    ConsistentParts(used);
    WithoutAt(used, |cs|);
    assert used[..|cs|] + used[|cs| + 1..] == cs;
  }

  lemma RunThree(cs: seq<Context>, a: Call, b: Call, c: Call)
    ensures Run(cs, [a, b, c]) == Next(Next(Next(cs, a), b), c)
  {
    hide Next;
    assert [a, b, c][..2] == [a, b] && [a, b][..1] == [a] && [a][..0] == [];
    assert Run(cs, []) == cs;
    assert Run(cs, [a]) == Next(cs, a);
    assert Run(cs, [a, b]) == Next(Next(cs, a), b);
  }

  class Table {
    var initCount: int
    var contexts: seq<Context>
    /** Handles grown and not yet closed or deleted. */
    var live: int

    ghost predicate Valid()
      reads this
    {
      initCount == |contexts| && Consistent(contexts) && live == AllOwned(contexts)
    }

    constructor ()
      ensures Valid() && contexts == []
    {
      initCount, contexts, live := 0, [], 0;
    }

    /** `findContextByCtn` and `findContextByPort`. */
    method Find(byPort: bool, n: nat) returns (k: int)
      ensures -1 <= k < |contexts|
      ensures k >= 0 ==> n == (if byPort then contexts[k].port else contexts[k].ctn)
      ensures k < 0 ==> forall i :: 0 <= i < |contexts| ==> n != (if byPort then contexts[i].port else contexts[i].ctn)
    {
      for i := 0 to |contexts|
        invariant forall j :: 0 <= j < i ==> n != (if byPort then contexts[j].port else contexts[j].ctn)
      {
        if n == (if byPort then contexts[i].port else contexts[i].ctn) { return i; }
      }
      return -1;
    }

    /** `fini`. */
    method Fini()
      modifies this`initCount
      ensures initCount == if old(initCount) > 0 then old(initCount) - 1 else old(initCount)
    {
      if initCount > 0 { initCount := initCount - 1; }
    }

    /** `_init_common1`: every exit but the last undoes `init`. */
    method Open(ctn: nat, port: nat, env: Environment) returns (rv: int)
      requires Valid()
      modifies this
      ensures Valid()
      ensures contexts ==
        if Opens(old(contexts), ctn, port, env) then old(contexts) + [Opened(ctn, port, env.kind)] else old(contexts)
      ensures Opens(old(contexts), ctn, port, env) ==> rv == 0
      ensures !env.initOk ==> rv == -11
      ensures env.initOk && !env.scanOk ==> rv == -10
      ensures env.initOk && env.scanOk ==>
        (ctn == 65535 || IsOpen(old(contexts), ctn) || (port != 0 && (PortTaken(old(contexts), port) || !env.found)) ==>
           rv == -127)
      ensures rv == 0 && !Opens(old(contexts), ctn, port, env) ==>
        !IsOpen(old(contexts), ctn) && env.kind == KindEcom && env.openError != 0 && env.openError % 256 == 0
    {
      hide AllOwned, Consistent;
      if !env.initOk { return -11; }
      initCount := initCount + 1;
      if !env.scanOk { Fini(); return -10; }
      if ctn == INVALID_CTN { Fini(); return -127; }
      var k := Find(false, ctn);
      if k >= 0 { Fini(); return -127; }
      if port != 0 {
        k := Find(true, port);
        if k >= 0 { Fini(); return -127; }
        if !env.found { Fini(); return -127; }
      }
      live := live + 1;
      if env.openError != 0 {
        live := live - 1;
        Fini();
        return if env.kind == KindEcom then Narrow(env.openError) else -127;
      }
      var c := Opened(ctn, port, env.kind);
      OwnedConcat(contexts, [c]);
      OwnedOne(c);
      AppendConsistent(contexts, ctn, port, env);
      contexts := contexts + [c];
      return 0;
    }

    /** `CT_internal`: an unexpected result means the device is lost, and its handle is given up. */
    method Command(ctn: nat, reply: int) returns (rv: int)
      requires Valid()
      modifies this`contexts, this`live
      ensures Valid() && contexts == Next(old(contexts), Data(ctn, reply))
      ensures !IsOpen(old(contexts), ctn) ==> rv == -128
      ensures forall k :: 0 <= k < |old(contexts)| && old(contexts)[k].ctn == ctn ==>
        rv == if Owned(old(contexts)[k]) == 0 then -127 else reply
    {
      hide AllOwned, Lose, Consistent;
      ConsistentParts(contexts);
      var k := Find(false, ctn);
      if k < 0 {
        assert Lose(contexts, ctn) == contexts;
        return -128;
      }
      LoseAt(contexts, k);
      LoseConsistent(contexts, ctn);
      var c := contexts[k];
      if !c.reader && !c.oldEcom && !c.ppa { return -127; }
      if reply == 0 || reply == -1 || reply == -11 { return reply; }
      if c.reader { c := c.(reader := false); }
      else if c.oldEcom { c := c.(oldEcom := false); }
      else { c := c.(ppa := false); }
      OwnedAt(contexts, k, c);
      contexts, live := contexts[k := c], live - 1;
      return reply;
    }

    /** `nt_close`. */
    method Release(ctn: nat) returns (rv: int)
      requires Valid()
      modifies this
      ensures Valid() && contexts == Next(old(contexts), Close(ctn))
      ensures rv == -128 <==> !IsOpen(old(contexts), ctn)
      ensures forall k :: 0 <= k < |old(contexts)| && old(contexts)[k].ctn == ctn ==>
        rv == if Owned(old(contexts)[k]) == 0 then -127 else 0
    {
      hide AllOwned, Without, Consistent;
      ConsistentParts(contexts);
      var k := Find(false, ctn);
      WithoutIsAbsent(contexts, ctn);
      if k < 0 { return -128; }
      WithoutAt(contexts, k);
      RemovalConsistent(contexts, k);
      var c := contexts[k];
      rv := if c.reader || c.oldEcom || c.ppa then 0 else -127;
      OwnedAt(contexts, k, c);
      if c.reader { live := live - 1; }
      else if c.oldEcom { live := live - 1; }
      else if c.ppa { live := live - 1; }
      contexts := contexts[..k] + contexts[k + 1..];
      Fini();
    }

    /** `CT_init` and `rsct_init_name`: open, then ask the terminal who it is; close again if it does not say. */
    method Start(ctn: nat, port: nat, byName: bool, env: Environment) returns (rv: int)
      requires Valid()
      modifies this
      ensures Valid() && contexts == Next(old(contexts), Init(ctn, port, byName, env))
      ensures rv == 0 <==> contexts != old(contexts)
    {
      hide AllOwned, Consistent, Lose, Without;
      if (!byName && port == 0) || ctn == INVALID_CTN { return -127; }
      ghost var before := contexts;
      rv := Open(ctn, if byName then 0 else port, env);
      if rv == 0 {
        ghost var grown := contexts;
        ConsistentParts(grown);
        if grown != before { assert grown[|before|].ctn == ctn; }
        rv := Command(ctn, env.firstReply);
        if rv != 0 {
          ConsistentParts(contexts);
          if grown != before {
            assert contexts[..|before|] == before;
            WithoutAt(contexts, |before|);
          } else {
            NotOpen(before, contexts, ctn);
          }
          var _ := Release(ctn);
        }
      }
    }

    /** Any run of calls, against any behaviour of the terminals, leaves a valid table that the run explains. */
    method Session(calls: seq<Call>)
      requires Valid()
      modifies this
      ensures Valid() && contexts == Run(old(contexts), calls)
    {
      hide Next, Consistent, AllOwned;
      var i := 0;
      while i < |calls|
        invariant 0 <= i <= |calls| && Valid() && contexts == Run(old(contexts), calls[..i])
      {
        match calls[i] {
          case Init(ctn, port, byName, env) => var _ := Start(ctn, port, byName, env);
          case Data(ctn, reply) => var _ := Command(ctn, reply);
          case Close(ctn) => var _ := Release(ctn);
        }
        assert calls[..i + 1][..i] == calls[..i];
        i := i + 1;
      }
      assert calls[..i] == calls;
    }
  }
}
