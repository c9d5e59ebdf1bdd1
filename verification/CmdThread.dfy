/** Commands queued for a worker thread. */
module CmdThread {

  datatype Command = StartDataProc | StopDataProc | DoNextJob | Exit

  function CountNext(cmds: seq<Command>): nat {
    if cmds == [] then 0
    else (if cmds[0] == DoNextJob then 1 else 0) + CountNext(cmds[1..])
  }

  lemma {:induction false} CountNextConcat(a: seq<Command>, b: seq<Command>)
    ensures CountNext(a + b) == CountNext(a) + CountNext(b)
  {
    if a == [] {
      assert a + b == b;
    } else {
      assert (a + b)[1..] == a[1..] + b;
      CountNextConcat(a[1..], b);
    }
  }

  lemma CountNextOne(c: Command)
    ensures CountNext([c]) == if c == DoNextJob then 1 else 0
  {
    assert [c][1..] == [];
  }

  /** How sending a command, behind the others or in front of them, changes the count. */
  lemma CountSent(cmds: seq<Command>, c: Command)
    ensures CountNext(cmds + [c]) == CountNext(cmds) + if c == DoNextJob then 1 else 0
    ensures CountNext([c] + cmds) == CountNext(cmds) + if c == DoNextJob then 1 else 0
  {
    CountNextOne(c);
    CountNextConcat(cmds, [c]);
    CountNextConcat([c], cmds);
  }
}
