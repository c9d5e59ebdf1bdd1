/**
 Staging and committing camera parameters: strings are staged in a temporary map while their
 values are put into the batch, and both take effect only when the backend accepts the batch.
 */
module ParamCommit {
  import opened Wrappers
  import opened Bytes
  import opened ParamBatch

  const NAME_NOT_FOUND := -2

  type Table = seq<(string, int)>

  /** The value of the first entry with the name. */
  function Lookup(t: Table, name: string): int {
    if t == [] then NAME_NOT_FOUND else if t[0].0 == name then t[0].1 else Lookup(t[1..], name)
  }

  /** Some entry has the name. */
  ghost predicate Named(t: Table, name: string) { exists i :: 0 <= i < |t| && t[i].0 == name }

  /** Entry i is the first with the name. */
  ghost predicate FirstNamed(t: Table, name: string, i: int) {
    0 <= i < |t| && t[i].0 == name && forall j :: 0 <= j < i ==> t[j].0 != name
  }

  lemma {:induction false} LookupIsFirst(t: Table, name: string)
    ensures Named(t, name) ==> exists i :: FirstNamed(t, name, i) && t[i].1 == Lookup(t, name)
    ensures !Named(t, name) ==> Lookup(t, name) == NAME_NOT_FOUND
  {
    if t != [] && t[0].0 != name {
      LookupIsFirst(t[1..], name);
      if i :| FirstNamed(t[1..], name, i) && t[1..][i].1 == Lookup(t[1..], name) {
        assert FirstNamed(t, name, i + 1);
      }
      if i :| 0 <= i < |t| && t[i].0 == name { assert t[1..][i - 1].0 == name; }
    } else if t != [] {
      assert FirstNamed(t, name, 0);
    }
  }

  method LookupAttr(t: Table, name: Option<string>) returns (r: int)
    ensures r == if name.Some? then Lookup(t, name.value) else NAME_NOT_FOUND
    ensures if name.Some? && Named(t, name.value)
            then exists i :: FirstNamed(t, name.value, i) && t[i].1 == r
            else r == -2
  {
    if name.Some? { LookupIsFirst(t, name.value); }
    if name.Some? {
      for i := 0 to |t|
        invariant Lookup(t, name.value) == Lookup(t[i..], name.value)
      {
        if t[i].0 == name.value { return t[i].1; }
      }
    }
    return NAME_NOT_FOUND;
  }

  /** A parameter whose setter stages the string under `key` and links the value under `id`. */
  datatype Setting = Setting(key: string, id: Id, table: Table)

  ghost predicate Int32Table(t: Table) {
    forall i :: 0 <= i < |t| ==> -0x8000_0000 <= t[i].1 < 0x8000_0000
  }

  /** The settings share neither keys nor ids, and none uses the id of the HAL version. */
  ghost predicate Separate(settings: set<Setting>) {
    && (forall c :: c in settings ==> c.id != PARM_HAL_VERSION && Int32Table(c.table))
    && (forall c, d :: c in settings && d in settings && (c.key == d.key || c.id == d.id) ==> c == d)
  }

  datatype Params = Params(
    temp: map<string, string>,       // staged strings
    committed: map<string, string>,  // what get() answers
    batch: Batch,
    backend: map<Id, seq<Byte>>      // the values in force below the HAL
  )

  datatype Step =
    | Begin                                          // initBatchUpdate
    | Set(setting: Setting, name: Option<string>)
    | AddOther(id: Id, value: seq<Byte>)             // an entry outside the tracked settings
    | StageOther(key: string, text: string)
    | Commit(accept: bool)                           // the answer of the backend, if it is asked

  ghost predicate Enabled(settings: set<Setting>, e: Step) {
    match e
    case Set(c, _) => c in settings
    case AddOther(id, _) => forall c :: c in settings ==> c.id != id
    case StageOther(k, _) => forall c :: c in settings ==> c.key != k
    case _ => true
  }

  function Linked(b: Batch): map<Id, seq<Byte>>
    requires |b.slots| == PARM_MAX
  {
    map i | i in b.linked :: b.slots[i]
  }

  function Next(p: Params, entrySize: nat, e: Step): (q: Params)
    requires |p.batch.slots| == PARM_MAX
    ensures |q.batch.slots| == PARM_MAX
  {
    match e
    case Begin => p.(temp := map[], batch := Init(entrySize))
    case Set(c, name) =>
      if name.None? || Lookup(c.table, name.value) == NAME_NOT_FOUND then p
      else p.(temp := p.temp[c.key := name.value],
              batch := Add(p.batch, c.id, Le32(Lookup(c.table, name.value))))
    case AddOther(id, v) => p.(batch := Add(p.batch, id, v))
    case StageOther(k, v) => p.(temp := p.temp[k := v])
    case Commit(accept) =>
      if p.batch.linked != {} && !accept then p
      else p.(temp := map[], committed := p.committed + p.temp, backend := p.backend + Linked(p.batch))
  }

  // ---------- agreement ----------

  /** The bytes start with the encoding of what the name stands for. */
  predicate Means(bytes: seq<Byte>, c: Setting, name: string) {
    |bytes| >= 4 && FromLe32(bytes[..4]) == Lookup(c.table, name)
  }

  /** The backend has the value of the committed string. */
  predicate Agrees(p: Params, c: Setting) {
    c.key in p.committed ==> c.id in p.backend && Means(p.backend[c.id], c, p.committed[c.key])
  }

  /** What a later commit relies on: a staged string has its value in the batch, and a value left
      in the batch without a staged string is that of the committed string. */
  ghost predicate Staged(p: Params, c: Setting)
    requires |p.batch.slots| == PARM_MAX
  {
    && (c.key in p.temp ==> c.id in p.batch.linked && Means(p.batch.slots[c.id], c, p.temp[c.key]))
    && (c.id in p.batch.linked && c.key !in p.temp
        ==> c.key in p.committed && Means(p.batch.slots[c.id], c, p.committed[c.key]))
  }

  ghost predicate Inv(p: Params, entrySize: nat, settings: set<Setting>) {
    && |p.batch.slots| == PARM_MAX
    && (forall i :: 0 <= i < PARM_MAX ==> |p.batch.slots[i]| == entrySize)
    && (forall c :: c in settings ==> Agrees(p, c) && Staged(p, c))
  }

  lemma {:induction false} LookupInt32(t: Table, name: string)
    requires Int32Table(t)
    ensures -0x8000_0000 <= Lookup(t, name) < 0x8000_0000
  {
    if t != [] && t[0].0 != name {
      assert forall i :: 0 <= i < |t[1..]| ==> t[1..][i] == t[i + 1];
      LookupInt32(t[1..], name);
    }
  }

  lemma {:induction false} OverlayMeans(slot: seq<Byte>, c: Setting, name: string)
    requires |slot| >= 4 && Int32Table(c.table)
    ensures Means(Overlay(slot, Le32(Lookup(c.table, name))), c, name)
  {
    hide Le32, FromLe32;
    var v := Lookup(c.table, name);
    LookupInt32(c.table, name);
    Le32RoundTrip(v);
    assert Overlay(slot, Le32(v))[..4] == Le32(v);
  }

  lemma StepKeepsInv(p: Params, entrySize: nat, settings: set<Setting>, e: Step)
    requires entrySize >= 4 && Separate(settings) && Enabled(settings, e)
    requires Inv(p, entrySize, settings)
    ensures Inv(Next(p, entrySize, e), entrySize, settings)
  {
    hide Means, Le32, Lookup;
    var q := Next(p, entrySize, e);
    if e.Set? && e.name.Some? {
      OverlayMeans(p.batch.slots[e.setting.id], e.setting, e.name.value);
    }
    forall c | c in settings ensures Agrees(q, c) && Staged(q, c) {
      assert Agrees(p, c) && Staged(p, c);
    }
  }

  ghost function Exec(p: Params, entrySize: nat, run: seq<Step>): Params
    requires |p.batch.slots| == PARM_MAX
    decreases |run|
  {
    if run == [] then p else Exec(Next(p, entrySize, run[0]), entrySize, run[1..])
  }

  function Fresh(entrySize: nat): Params { Params(map[], map[], Init(entrySize), map[]) }

  lemma {:induction false} RunKeepsInv(p: Params, entrySize: nat, settings: set<Setting>, run: seq<Step>)
    requires entrySize >= 4 && Separate(settings)
    requires forall i :: 0 <= i < |run| ==> Enabled(settings, run[i])
    requires Inv(p, entrySize, settings)
    ensures Inv(Exec(p, entrySize, run), entrySize, settings)
    decreases |run|
  {
    if run != [] {
      StepKeepsInv(p, entrySize, settings, run[0]);
      RunKeepsInv(Next(p, entrySize, run[0]), entrySize, settings, run[1..]);
    }
  }

  /** Over any run of stage and commit steps, whatever the backend answers, every committed string
      maps to the value the backend has. */
  lemma {:induction false} CommittedAgreesWithBackend(entrySize: nat, settings: set<Setting>, run: seq<Step>, c: Setting)
    requires entrySize >= 4 && Separate(settings) && c in settings
    requires forall i :: 0 <= i < |run| ==> Enabled(settings, run[i])
    ensures Agrees(Exec(Fresh(entrySize), entrySize, run), c)
  {
    RunKeepsInv(Fresh(entrySize), entrySize, settings, run);
  }

  /** Said of the table itself: a committed string is the name of an entry, and the backend has the
      value of the first such entry, in little-endian bytes at the start of the slot. */
  lemma CommittedEntry(entrySize: nat, settings: set<Setting>, run: seq<Step>, c: Setting)
    requires entrySize >= 4 && Separate(settings) && c in settings
    requires forall i :: 0 <= i < |run| ==> Enabled(settings, run[i])
    ensures var p := Exec(Fresh(entrySize), entrySize, run);
      c.key in p.committed ==>
        && c.id in p.backend && |p.backend[c.id]| >= 4
        && exists i :: FirstNamed(c.table, p.committed[c.key], i)
             && c.table[i].1 == FromLe32(p.backend[c.id][..4])
  {
    hide FromLe32, Exec;
    var p := Exec(Fresh(entrySize), entrySize, run);
    CommittedAgreesWithBackend(entrySize, settings, run, c);
    RunKeepsNames(Fresh(entrySize), entrySize, settings, run);
    if c.key in p.committed { LookupIsFirst(c.table, p.committed[c.key]); }
  }

  /** Staged and committed strings are names in their tables. */
  ghost predicate NamesKnown(p: Params, settings: set<Setting>) {
    forall c :: c in settings ==>
      && (c.key in p.temp ==> Named(c.table, p.temp[c.key]))
      && (c.key in p.committed ==> Named(c.table, p.committed[c.key]))
  }

  lemma {:induction false} RunKeepsNames(p: Params, entrySize: nat, settings: set<Setting>, run: seq<Step>)
    requires Separate(settings) && NamesKnown(p, settings) && |p.batch.slots| == PARM_MAX
    requires forall i :: 0 <= i < |run| ==> Enabled(settings, run[i])
    ensures NamesKnown(Exec(p, entrySize, run), settings)
    decreases |run|
  {
    hide Named, Lookup, Le32;
    if run != [] {
      var e := run[0];
      if e.Set? && e.name.Some? { LookupIsFirst(e.setting.table, e.name.value); }
      RunKeepsNames(Next(p, entrySize, e), entrySize, settings, run[1..]);
    }
  }

  // ---------- the parameter object ----------

  class QCameraParameters {
    const buf: ParmBuffer
    var temp: map<string, string>
    var committed: map<string, string>
    ghost var backend: map<Id, seq<Byte>>  // stands for the daemon on the other side

    ghost predicate Valid()
      reads this, buf, buf.next, buf.data
    {
      buf.Valid()
    }

    ghost function Abs(): (p: Params)
      requires Valid()
      reads this, buf, buf.next, buf.data
      ensures |p.batch.slots| == PARM_MAX
    {
      Params(temp, committed, buf.Abs(), backend)
    }

    constructor (entrySize: nat)
      requires entrySize >= 4
      ensures Valid() && Abs() == Fresh(entrySize) && buf.entrySize == entrySize
    {
      buf := new ParmBuffer(entrySize);
      temp, committed, backend := map[], map[], map[];
    }

    method InitBatchUpdate()
      requires Valid()
      modifies this`temp, buf, buf.next, buf.data
      ensures Valid() && Abs() == Next(old(Abs()), buf.entrySize, Begin)
      ensures temp == map[] && committed == old(committed) && backend == old(backend)
      ensures buf.linked == {0} && buf.data[0][..4] == [1, 0, 0, 0]
    {
      temp := map[];
      buf.InitBatchUpdate();
    }

    method UpdateParamEntry(key: string, value: string)
      modifies this`temp
      ensures temp == old(temp)[key := value]
    {
      temp := temp[key := value];
    }

    /** The common shape of setEffect, setWhiteBalance, setISOValue, setFlash, setAntibanding, ... */
    method SetByName(c: Setting, name: Option<string>) returns (ok: bool)
      requires Valid()
      modifies this`temp, buf, buf.next, buf.data
      ensures Valid() && Abs() == Next(old(Abs()), buf.entrySize, Set(c, name))
      ensures ok <==> name.Some? && Lookup(c.table, name.value) != NAME_NOT_FOUND
      ensures name.None? || !Named(c.table, name.value) ==> !ok && Abs() == old(Abs())
      ensures ok <==> name.Some? && exists i :: FirstNamed(c.table, name.value, i) && c.table[i].1 != -2
      ensures ok ==>
        && name.Some? && temp == old(temp)[c.key := name.value] && buf.linked == old(buf.linked) + {c.id}
        && (exists i :: FirstNamed(c.table, name.value, i)
              && buf.data[c.id] == Le32(c.table[i].1) + old(buf.data[c.id])[4..])
        && forall i :: 0 <= i < PARM_MAX && i != c.id ==> buf.data[i] == old(buf.data[i])
      ensures committed == old(committed) && backend == old(backend)
    {
      if name.Some? { LookupIsFirst(c.table, name.value); }
      if name.Some? {
        var value := LookupAttr(c.table, name);
        if value != NAME_NOT_FOUND {
          UpdateParamEntry(c.key, name.value);
          ok := buf.AddSetParmEntryToBatch(c.id, Le32(value));
          return;
        }
      }
      return false;
    }

    /** `accept` is the backend's answer to set_parms; a refused batch has no effect there. */
    method CommitSetBatch(accept: bool) returns (ok: bool)
      requires Valid()
      modifies this`temp, this`committed, this`backend
      ensures Valid() && Abs() == Next(old(Abs()), buf.entrySize, Commit(accept))
      ensures ok <==> old(Abs()).batch.linked == {} || accept
      ensures ok ==>
        && temp == map[] && committed == old(committed) + old(temp)
        && forall i :: i in backend <==> i in old(backend) || i in buf.linked
      ensures ok ==>
        forall i :: i in backend ==> backend[i] == if i in buf.linked then buf.data[i] else old(backend)[i]
      ensures !ok ==> temp == old(temp) && committed == old(committed) && backend == old(backend)
    {
      ok := true;
      if buf.first < PARM_MAX {
        ok := accept;
        if accept {
          ghost var sent := Linked(buf.Abs());
          backend := backend + sent;
        }
      } else {
        assert buf.linked == {};
        assert Linked(buf.Abs()) == map[];
      }
      if ok {
        CommitParamChanges();
      }
    }

    method CommitParamChanges()
      modifies this`temp, this`committed
      ensures temp == map[] && committed == old(committed) + old(temp)
    {
      var rest := temp.Keys;
      ghost var done := {};
      while rest != {}
        invariant rest !! done && rest + done == temp.Keys && temp == old(temp)
        invariant committed == old(committed) + map k | k in done :: old(temp)[k]
        decreases rest
      {
        var k :| k in rest;
        committed := committed[k := temp[k]];
        rest := rest - {k};
        done := done + {k};
      }
      temp := map[];
    }
  }
}
