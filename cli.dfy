/** The command line of blueprint (main.go): which action the arguments select, the
    --force flag of dump and the --step / --batch parameters of rollback. The arguments
    are those after the program name. */
module Cli {
  import opened Base
  import opened Text

  /** What main does: the command it runs, or the error it reports without running one. */
  datatype Command =
    | Init
    | Run
    | Create(action: string, params: seq<string>)
    | Dump(force: bool)
    | Rollback(step: int, batch: int)
    | Rejected(err: Error)
    | Help

  const StepFlag: string := "--step"
  const BatchFlag: string := "--batch"
  const ForceFlag: string := "--force"

  predicate IsRollbackFlag(p: string) {
    p == StepFlag || p == BatchFlag
  }

  /** The state of the parameter loop of the rollback command: the error that stopped it, if
      any, and the step and batch read so far. */
  datatype Params = Params(err: Option<Error>, step: int, batch: int)

  /** The parameter loop from index idx on: a flag takes the next token as its value, which
      must be an integer of at least 1; the last value given for a flag wins; other tokens
      are skipped; the first error stops the loop. */
  function Scan(params: seq<string>, idx: nat, step: int, batch: int): Params
    decreases |params| - idx
  {
    if idx >= |params| then Params(None, step, batch)
    else
      var p := params[idx];
      if !IsRollbackFlag(p) then Scan(params, idx + 1, step, batch)
      else if idx + 1 >= |params| then Params(Some(InvalidParam(p)), step, batch)
      else
        var token := params[idx + 1];
        match Atoi(token)
        case None => Params(Some(NotAnInteger(token)), step, batch)
        case Some(v) =>
          if v < 1 then Params(Some(InvalidParamValue(p, token)), step, batch)
          else if p == StepFlag then Scan(params, idx + 2, v, batch)
          else Scan(params, idx + 2, step, v)
  }

  /** The whole rollback branch of main: the loop from zero, then the check that not both a
      step and a batch were given, which replaces any error of the loop. */
  function RollbackParams(params: seq<string>): Params {
    var s := Scan(params, 0, 0, 0);
    if s.step != 0 && s.batch != 0 then Params(Some(StepAndBatch), s.step, s.batch) else s
  }

  /** The rollback branch of main, as written: a loop over the parameters with an index that
      also skips the value of a flag. */
  method ParseRollbackParams(params: seq<string>) returns (err: Option<Error>, step: int, batch: int)
    ensures Params(err, step, batch) == RollbackParams(params)
  {
    step, batch := 0, 0;
    err := None;
    var idx := 0;
    while idx < |params|
      invariant 0 <= idx <= |params| + 1
      invariant Scan(params, idx, step, batch) == Scan(params, 0, 0, 0)
      decreases |params| - idx
    {
      var param := params[idx];
      if param == StepFlag || param == BatchFlag {
        if idx + 1 >= |params| {
          err := Some(InvalidParam(param));
          break;
        }
        var value := Atoi(params[idx + 1]);
        if value.None? {
          err := Some(NotAnInteger(params[idx + 1]));
          break;
        }
        if value.value < 1 {
          err := Some(InvalidParamValue(param, params[idx + 1]));
          break;
        }
        if param == StepFlag {
          step := value.value;
        } else {
          batch := value.value;
        }
        idx := idx + 1;
      }
      idx := idx + 1;
    }
    if step != 0 && batch != 0 {
      err := Some(StepAndBatch);
    }
  }

  /** The dump branch of main: whether any parameter is exactly "--force". */
  method ForceRequested(params: seq<string>) returns (force: bool)
    ensures force <==> ForceFlag in params
  {
    force := false;
    for k := 0 to |params|
      invariant force <==> ForceFlag in params[..k]
    {
      assert params[..k + 1] == params[..k] + [params[k]];
      if params[k] == ForceFlag {
        force := true;
      }
    }
    assert params[..|params|] == params;
  }

  /** What main runs for the arguments: run without arguments; otherwise the action, lowered,
      selects init, run, create/update, dump, rollback or, for anything else, help. */
  function CommandFor(args: seq<string>): Command {
    if args == [] then Run
    else
      var action := Lower(args[0]);
      var params := args[1..];
      if action == "init" then Init
      else if action == "run" then Run
      else if action == "create" || action == "update" then Create(action, params)
      else if action == "dump" then Dump(ForceFlag in params)
      else if action == "rollback" then
        var r := RollbackParams(params);
        if r.err.Some? then Rejected(r.err.value) else Rollback(r.step, r.batch)
      else Help
  }

  /** The dispatch of main. */
  method Dispatch(args: seq<string>) returns (cmd: Command)
    ensures cmd == CommandFor(args)
  {
    if |args| == 0 {
      return Run;
    }
    var action := Lower(args[0]);
    var params := args[1..];
    if action == "init" {
      cmd := Init;
    } else if action == "run" {
      cmd := Run;
    } else if action == "create" || action == "update" {
      cmd := Create(action, params);
    } else if action == "dump" {
      var force := ForceRequested(params);
      cmd := Dump(force);
    } else if action == "rollback" {
      var err, step, batch := ParseRollbackParams(params);
      if err.Some? {
        cmd := Rejected(err.value);
      } else {
        cmd := Rollback(step, batch);
      }
    } else {
      cmd := Help;
    }
  }

  // ---------------------------------------------------------------------------------------
  // Properties of the command line

  /** The action word is not case sensitive. */
  lemma ActionCaseInsensitive(args: seq<string>)
    requires args != []
    ensures CommandFor(args) == CommandFor([Lower(args[0])] + args[1..])
  {
    LowerIdempotent(args[0]);
    assert ([Lower(args[0])] + args[1..])[1..] == args[1..];
  }

  /** The values the loop reads are at least 1, so a step or batch that is not 0 was given
      on the command line; without an error neither is negative. */
  lemma {:induction false} ScanValues(params: seq<string>, idx: nat, step: int, batch: int)
    requires step >= 0 && batch >= 0
    ensures var r := Scan(params, idx, step, batch);
      r.step >= 0 && r.batch >= 0 && (r.step != step ==> r.step >= 1) && (r.batch != batch ==> r.batch >= 1)
    decreases |params| - idx
  {
    if idx < |params| {
      var p := params[idx];
      if !IsRollbackFlag(p) {
        ScanValues(params, idx + 1, step, batch);
      } else if idx + 1 < |params| {
        var v := Atoi(params[idx + 1]);
        if v.Some? && v.value >= 1 {
          if p == StepFlag {
            ScanValues(params, idx + 2, v.value, batch);
          } else {
            ScanValues(params, idx + 2, step, v.value);
          }
        }
      }
    }
  }

  /** A rollback that main accepts is in exactly one mode, or in neither (the default):
      never a step and a batch together, and never a value below 1. */
  lemma AcceptedRollbackParams(params: seq<string>)
    requires CommandFor(["rollback"] + params).Rollback?
    ensures var c := CommandFor(["rollback"] + params);
      c.step >= 0 && c.batch >= 0 && (c.step == 0 || c.batch == 0)
  {
    assert Lower("rollback") == "rollback";
    assert (["rollback"] + params)[1..] == params;
    ScanValues(params, 0, 0, 0);
  }

  /** An index shift: the loop over a + [x] + b from a position past x gives the same as
      the loop over a + b from the matching position, whatever x is. */
  lemma {:induction false} ScanShift(a: seq<string>, x: string, b: seq<string>, j: nat, step: int, batch: int)
    ensures Scan(a + [x] + b, |a| + 1 + j, step, batch) == Scan(a + b, |a| + j, step, batch)
    decreases |b| - j
  {
    var q := a + [x] + b;
    var r := a + b;
    var i := |a| + j;
    if j < |b| {
      assert q[i + 1] == b[j] == r[i];
      if j + 1 < |b| {
        assert q[i + 2] == b[j + 1] == r[i + 1];
      }
      ScanShift(a, x, b, j + 1, step, batch);
      ScanShift(a, x, b, j + 2, step, batch);
      if j + 1 < |b| {
        var w := Atoi(b[j + 1]);
        if w.Some? {
          ScanShift(a, x, b, j + 2, w.value, batch);
          ScanShift(a, x, b, j + 2, step, w.value);
        }
      }
    }
  }

  /** A token that is not a flag, met by the loop at any position, is skipped: the loop from
      there gives the same result as if the token were absent. */
  lemma IgnoredAt(a: seq<string>, x: string, b: seq<string>, step: int, batch: int)
    requires !IsRollbackFlag(x)
    ensures Scan(a + [x] + b, |a|, step, batch) == Scan(a + b, |a|, step, batch)
  {
    assert (a + [x] + b)[|a|] == x;
    ScanShift(a, x, b, 0, step, batch);
  }

  /** The loop over a + c passes through position |a| in the state the loop over a ends in,
      when that loop ends without an error: a flag is never the last token of a, so no value
      is taken from c. */
  lemma {:induction false} ScanConcat(a: seq<string>, c: seq<string>, i: nat, step: int, batch: int)
    requires i <= |a|
    requires Scan(a, i, step, batch).err == None
    ensures var s := Scan(a, i, step, batch);
      Scan(a + c, i, step, batch) == Scan(a + c, |a|, s.step, s.batch)
    decreases |a| - i
  {
    if i < |a| {
      var p := a[i];
      assert (a + c)[i] == p;
      if !IsRollbackFlag(p) {
        ScanConcat(a, c, i + 1, step, batch);
      } else {
        assert (a + c)[i + 1] == a[i + 1];
        var v := Atoi(a[i + 1]);
        if p == StepFlag {
          ScanConcat(a, c, i + 2, v.value, batch);
        } else {
          ScanConcat(a, c, i + 2, step, v.value);
        }
      }
    }
  }

  /** A token that is not a flag is ignored wherever the loop examines it: after any
      parameters the loop reads without an error, and before any others. */
  lemma IgnoredBetween(a: seq<string>, x: string, b: seq<string>)
    requires !IsRollbackFlag(x) && Scan(a, 0, 0, 0).err == None
    ensures RollbackParams(a + [x] + b) == RollbackParams(a + b)
  {
    var s := Scan(a, 0, 0, 0);
    ScanConcat(a, [x] + b, 0, 0, 0);
    ScanConcat(a, b, 0, 0, 0);
    assert a + ([x] + b) == a + [x] + b;
    IgnoredAt(a, x, b, s.step, s.batch);
  }

  /** A leading token that is not a flag does not change the parameters. */
  lemma IgnoredToken(x: string, params: seq<string>)
    requires !IsRollbackFlag(x)
    ensures RollbackParams([x] + params) == RollbackParams(params)
  {
    IgnoredAt([], x, params, 0, 0);
    assert [] + [x] + params == [x] + params;
    assert [] + params == params;
  }

  /** A flag with nothing after it is an invalid parameter, after whatever the loop read
      before it. */
  lemma MissingValue(a: seq<string>, flag: string)
    requires IsRollbackFlag(flag) && Scan(a, 0, 0, 0).err == None
    ensures var s := Scan(a, 0, 0, 0);
      Scan(a + [flag], 0, 0, 0) == Params(Some(InvalidParam(flag)), s.step, s.batch)
    ensures var s := Scan(a, 0, 0, 0);
      RollbackParams(a + [flag]).err == Some(if s.step != 0 && s.batch != 0 then StepAndBatch else InvalidParam(flag))
  {
    ScanConcat(a, [flag], 0, 0, 0);
    assert (a + [flag])[|a|] == flag;
  }

  /** The token after a flag is always its value, even when it is itself a flag: it is never
      read as a flag, wherever the pair stands and whatever follows. */
  lemma ValueNeverReadAsFlag(a: seq<string>, flag: string, other: string, b: seq<string>)
    requires IsRollbackFlag(flag) && IsRollbackFlag(other) && Scan(a, 0, 0, 0).err == None
    ensures var s := Scan(a, 0, 0, 0);
      Scan(a + [flag, other] + b, 0, 0, 0) == Params(Some(NotAnInteger(other)), s.step, s.batch)
  {
    var ps := a + [flag, other] + b;
    ScanConcat(a, [flag, other] + b, 0, 0, 0);
    assert a + ([flag, other] + b) == ps;
    assert ps[|a|] == flag && ps[|a| + 1] == other;
    assert other[1..][0] == '-';
  }

  /** A value below 1 is refused wherever its flag stands; a value of at least 1 sets the
      flag and the loop goes on after it. */
  lemma ValueBelowOne(a: seq<string>, flag: string, n: nat, b: seq<string>)
    requires IsRollbackFlag(flag) && n <= MaxInt64 && Scan(a, 0, 0, 0).err == None
    ensures var s := Scan(a, 0, 0, 0);
      var ps := a + [flag, DecimalString(n)] + b;
      Scan(ps, 0, 0, 0) ==
        if n == 0 then Params(Some(InvalidParamValue(flag, DecimalString(n))), s.step, s.batch)
        else if flag == StepFlag then Scan(ps, |a| + 2, n, s.batch)
        else Scan(ps, |a| + 2, s.step, n)
  {
    AtoiDecimalString(n);
    var ps := a + [flag, DecimalString(n)] + b;
    ScanConcat(a, [flag, DecimalString(n)] + b, 0, 0, 0);
    assert a + ([flag, DecimalString(n)] + b) == ps;
    assert ps[|a|] == flag && ps[|a| + 1] == DecimalString(n);
  }

  /** The last value given for a flag wins: whatever the earlier parameters set it to, and
      whatever tokens stand between, the flag ends with the last value and the other flag
      keeps its value. */
  lemma LastValueWins(a: seq<string>, flag: string, v: nat)
    requires IsRollbackFlag(flag) && 1 <= v <= MaxInt64 && Scan(a, 0, 0, 0).err == None
    ensures var s := Scan(a, 0, 0, 0);
      Scan(a + [flag, DecimalString(v)], 0, 0, 0) ==
        if flag == StepFlag then Params(None, v, s.batch) else Params(None, s.step, v)
  {
    ValueBelowOne(a, flag, v, []);
    assert a + [flag, DecimalString(v)] + [] == a + [flag, DecimalString(v)];
  }

  /** Giving both a step and a batch is refused, and that check comes last: it replaces an
      error the loop met after both were read. */
  lemma StepAndBatchWins(a: nat, b: nat, rest: seq<string>)
    requires 1 <= a <= MaxInt64 && 1 <= b <= MaxInt64
    ensures RollbackParams([StepFlag, DecimalString(a), BatchFlag, DecimalString(b)] + rest).err == Some(StepAndBatch)
  {
    AtoiDecimalString(a);
    AtoiDecimalString(b);
    var ps := [StepFlag, DecimalString(a), BatchFlag, DecimalString(b)] + rest;
    assert ps[0] == StepFlag && ps[1] == DecimalString(a) && ps[2] == BatchFlag && ps[3] == DecimalString(b);
    assert Scan(ps, 0, 0, 0) == Scan(ps, 2, a, 0) == Scan(ps, 4, a, b);
    ScanValues(ps, 4, a, b);
  }

  /** No arguments, or the action run, runs the migrations; dump forces exactly when --force
      is one of its parameters; an unknown action shows the help. */
  lemma Dispatching(params: seq<string>, other: string)
    requires other != "" && Lower(other) !in {"init", "run", "create", "update", "dump", "rollback"}
    ensures CommandFor([]) == Run
    ensures CommandFor(["RUN"] + params) == Run
    ensures CommandFor(["dump"] + params) == Dump(ForceFlag in params)
    ensures CommandFor([other] + params) == Help
  {
    assert Lower("RUN") == "run";
    assert Lower("dump") == "dump";
    assert (["RUN"] + params)[1..] == params;
    assert (["dump"] + params)[1..] == params;
  }
}
