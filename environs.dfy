/**
 * The environment registry filled by the `environ` builtin, and the batch
 * drivers pullAll, pushAll and diffAll, which run one operation over a list of
 * environment names in order and stop at the first unknown name or failure.
 */
module Environs {
  import opened Base
  import opened Os
  import opened Archives
  import opened Sync

  /** What a step or a batch leaves behind: the new state, the result, and what it printed. */
  type Run = (Disk, Outcome<Error>, seq<Report>)

  /** The registry insert: a name already declared is refused and the registry is kept. */
  function Register(m: map<Name, Environ>, name: Name, env: Environ): (r: (map<Name, Environ>, Outcome<Error>))
    ensures r.1.Fail? <==> name in m
    ensures r.1.Fail? ==> r == (m, Fail(DeclaredTwice(name)))
    ensures r.1.Pass? ==> name in r.0 && r.0[name] == env && r.0.Keys == m.Keys + {name}
    ensures forall n :: n in m && n != name ==> n in r.0 && r.0[n] == m[n]
  {
    if name in m then (m, Fail(DeclaredTwice(name))) else (m[name := env], Pass)
  }

  /** The global `environs` map. */
  class Registry {
    var environs: map<Name, Environ>

    constructor ()
      ensures environs == map[]
    {
      environs := map[];
    }

    /** The `environ` builtin, after its arguments are unpacked. */
    method Declare(name: Name, env: Environ) returns (r: Outcome<Error>)
      modifies this
      ensures (environs, r) == Register(old(environs), name, env)
    {
      if name in environs {
        return Fail(DeclaredTwice(name));
      }
      environs := environs[name := env];
      r := Pass;
    }
  }

  /** One operation on one environment, with pull's count dropped: only diff prints reports. */
  function Step(op: Op, env: Environ, codec: Codec, d: Disk): (r: Run)
    ensures op != DiffOp ==> r.2 == []
  {
    match op
    case PullOp =>
      var (d1, r) := Pulled(env, codec, d);
      (d1, if r.Ok? then Pass else Fail(r.error), [])
    case PushOp =>
      var (d1, r) := Pushed(env, codec, d);
      (d1, r, [])
    case DiffOp => Diffed(env, codec, d)
  }

  /** Prefix what the steps so far printed to the run of the remaining names. */
  function Continued(out: seq<Report>, rest: Run): Run {
    (rest.0, rest.1, out + rest.2)
  }

  /** What running one environment does: a step over the state. */
  type Stepper = (Environ, Disk) -> Run

  /** The operation op as a Stepper. */
  function StepOf(op: Op, codec: Codec): Stepper {
    (env, d) => Step(op, env, codec, d)
  }

  /** One name of a batch: an unknown name stops the batch, and a failure is wrapped with the name. */
  function Named(op: Op, step: Stepper, environs: map<Name, Environ>, name: Name, d: Disk): (r: Run)
    ensures r.1.Fail? ==>
      || (r.1 == Fail(EnvironNotFound(name)) && name !in environs)
      || (r.1.error.OpFailed? && r.1.error.op == op && r.1.error.env == name && name in environs)
    ensures name !in environs ==> r == (d, Fail(EnvironNotFound(name)), [])
  {
    if name !in environs then (d, Fail(EnvironNotFound(name)), [])
    else
      var (d1, res, out) := step(environs[name], d);
      if res.Fail? then (d1, Fail(OpFailed(op, name, res.error)), out) else (d1, Pass, out)
  }

  /** The batch driver: run `step` (the operation op) over names, in order. */
  function Batch(op: Op, step: Stepper, environs: map<Name, Environ>, names: seq<Name>, d: Disk): (r: Run)
    ensures r.1.Fail? ==>
      || (r.1.error.EnvironNotFound? && r.1.error.env in names && r.1.error.env !in environs)
      || (r.1.error.OpFailed? && r.1.error.op == op && r.1.error.env in names && r.1.error.env in environs)
    ensures r.1.Pass? ==> forall i :: 0 <= i < |names| ==> names[i] in environs
  {
    if names == [] then (d, Pass, [])
    else
      var a := Named(op, step, environs, names[0], d);
      if a.1.Fail? then a
      else
        assert forall i :: 1 <= i < |names| ==> names[i] == names[1..][i - 1];
        Continued(a.2, Batch(op, step, environs, names[1..], a.0))
  }

  method RunStep(op: Op, env: Environ, codec: Codec, fs: FileSystem) returns (r: Outcome<Error>, out: seq<Report>)
    modifies fs
    ensures (fs.State(), r, out) == Step(op, env, codec, old(fs.State()))
  {
    out := [];
    match op
    case PullOp =>
      var pulled := Pull(env, codec, fs);
      r := if pulled.Ok? then Pass else Fail(pulled.error);
    case PushOp =>
      r := Push(env, codec, fs);
    case DiffOp =>
      r, out := Diff(env, codec, fs);
  }

  /** The body of the driver loop for one name. */
  method RunNamed(op: Op, reg: Registry, name: Name, codec: Codec, fs: FileSystem) returns (r: Outcome<Error>, out: seq<Report>)
    modifies fs
    ensures (fs.State(), r, out) == Named(op, StepOf(op, codec), reg.environs, name, old(fs.State()))
  {
    if name !in reg.environs {
      return Fail(EnvironNotFound(name)), [];
    }
    var res;
    res, out := RunStep(op, reg.environs[name], codec, fs);
    if res.Fail? {
      return Fail(OpFailed(op, name, res.error)), out;
    }
    r := Pass;
  }

  /** pullAll: the batch driver of pull. */
  method PullAll(reg: Registry, names: seq<Name>, codec: Codec, fs: FileSystem)
    returns (r: Outcome<Error>, printed: seq<Report>)
    modifies fs
    ensures (fs.State(), r, printed) == Batch(PullOp, StepOf(PullOp, codec), reg.environs, names, old(fs.State()))
  {
    ghost var step := StepOf(PullOp, codec);
    printed := [];
    ghost var whole := Batch(PullOp, step, reg.environs, names, fs.State());
    assert names[0..] == names && [] + whole.2 == whole.2;
    for i := 0 to |names|
      invariant whole == Continued(printed, Batch(PullOp, step, reg.environs, names[i..], fs.State()))
    {
      assert names[i..][0] == names[i] && names[i..][1..] == names[i + 1..];
      var res, out := RunNamed(PullOp, reg, names[i], codec, fs);
      ghost var rest := Batch(PullOp, step, reg.environs, names[i + 1..], fs.State());
      assert printed + (out + rest.2) == (printed + out) + rest.2;
      printed := printed + out;
      if res.Fail? {
        return res, printed;
      }
    }
    assert names[|names|..] == [] && printed + [] == printed;
    r := Pass;
  }

  /** pushAll: the batch driver of push. */
  method PushAll(reg: Registry, names: seq<Name>, codec: Codec, fs: FileSystem)
    returns (r: Outcome<Error>, printed: seq<Report>)
    modifies fs
    ensures (fs.State(), r, printed) == Batch(PushOp, StepOf(PushOp, codec), reg.environs, names, old(fs.State()))
  {
    ghost var step := StepOf(PushOp, codec);
    printed := [];
    ghost var whole := Batch(PushOp, step, reg.environs, names, fs.State());
    assert names[0..] == names && [] + whole.2 == whole.2;
    for i := 0 to |names|
      invariant whole == Continued(printed, Batch(PushOp, step, reg.environs, names[i..], fs.State()))
    {
      assert names[i..][0] == names[i] && names[i..][1..] == names[i + 1..];
      var res, out := RunNamed(PushOp, reg, names[i], codec, fs);
      ghost var rest := Batch(PushOp, step, reg.environs, names[i + 1..], fs.State());
      assert printed + (out + rest.2) == (printed + out) + rest.2;
      printed := printed + out;
      if res.Fail? {
        return res, printed;
      }
    }
    assert names[|names|..] == [] && printed + [] == printed;
    r := Pass;
  }

  /** diffAll: the batch driver of diff. */
  method DiffAll(reg: Registry, names: seq<Name>, codec: Codec, fs: FileSystem)
    returns (r: Outcome<Error>, printed: seq<Report>)
    modifies fs
    ensures (fs.State(), r, printed) == Batch(DiffOp, StepOf(DiffOp, codec), reg.environs, names, old(fs.State()))
  {
    ghost var step := StepOf(DiffOp, codec);
    printed := [];
    ghost var whole := Batch(DiffOp, step, reg.environs, names, fs.State());
    assert names[0..] == names && [] + whole.2 == whole.2;
    for i := 0 to |names|
      invariant whole == Continued(printed, Batch(DiffOp, step, reg.environs, names[i..], fs.State()))
    {
      assert names[i..][0] == names[i] && names[i..][1..] == names[i + 1..];
      var res, out := RunNamed(DiffOp, reg, names[i], codec, fs);
      ghost var rest := Batch(DiffOp, step, reg.environs, names[i + 1..], fs.State());
      assert printed + (out + rest.2) == (printed + out) + rest.2;
      printed := printed + out;
      if res.Fail? {
        return res, printed;
      }
    }
    assert names[|names|..] == [] && printed + [] == printed;
    r := Pass;
  }

  /** Running two lists of names is running the first, then, unless it failed, the second
      from the state the first left behind. */
  lemma {:induction false} BatchAppend(op: Op, step: Stepper, environs: map<Name, Environ>, first: seq<Name>, second: seq<Name>, d: Disk)
    ensures var a := Batch(op, step, environs, first, d);
      Batch(op, step, environs, first + second, d) ==
        if a.1.Fail? then a else Continued(a.2, Batch(op, step, environs, second, a.0))
    decreases |first|
  {
    var a := Batch(op, step, environs, first, d);
    if first == [] {
      assert first + second == second;
      var b := Batch(op, step, environs, second, d);
      assert [] + b.2 == b.2;
    } else {
      assert (first + second)[0] == first[0] && (first + second)[1..] == first[1..] + second;
      var n := Named(op, step, environs, first[0], d);
      if n.1.Pass? {
        BatchAppend(op, step, environs, first[1..], second, n.0);
        var t := Batch(op, step, environs, first[1..], n.0);
        if t.1.Pass? {
          var b := Batch(op, step, environs, second, t.0);
          assert n.2 + (t.2 + b.2) == (n.2 + t.2) + b.2;
        }
      }
    }
  }

  /** Nothing after the first failure runs: appending names to a failed batch changes nothing. */
  lemma BatchStopsAtFailure(op: Op, step: Stepper, environs: map<Name, Environ>, names: seq<Name>, more: seq<Name>, d: Disk)
    requires Batch(op, step, environs, names, d).1.Fail?
    ensures Batch(op, step, environs, names + more, d) == Batch(op, step, environs, names, d)
  {
    BatchAppend(op, step, environs, names, more, d);
  }

  /** An unknown name aborts the batch where it stands: the names before it have run, none after it runs. */
  lemma BatchStopsAtUnknown(op: Op, step: Stepper, environs: map<Name, Environ>, names: seq<Name>, i: nat, d: Disk)
    requires i < |names| && names[i] !in environs
    ensures var a := Batch(op, step, environs, names[..i], d);
      Batch(op, step, environs, names, d) ==
        if a.1.Fail? then a else (a.0, Fail(EnvironNotFound(names[i])), a.2)
  {
    assert names == names[..i] + names[i..];
    BatchAppend(op, step, environs, names[..i], names[i..], d);
    var a := Batch(op, step, environs, names[..i], d);
    assert a.2 + [] == a.2;
  }
}
