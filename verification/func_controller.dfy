/** The table from intercepted POSIX function names to the code that gives
    them their PVM meaning.  Entries come either from the YAML action table,
    each wrapped so that it first draws its arguments out of the message, or
    from functions that declare themselves with the decorator. */
module FuncControl {
  import opened Common
  import opened PosixArgs

  /** What a table entry runs: a YAML action wrapped with its argument
      mappings, or a decorated implementation, known here by its name. */
  datatype Handler = Wrapped(spec: ActionSpec) | Native(impl: string)

  /** What calling an entry does: run a named action on the argument set
      drawn from the message, or run a decorated implementation on the
      message itself. */
  datatype Invocation =
    | RunAction(action: string, argSet: map<string, Option<string>>)
    | RunNative(impl: string, msg: FuncMsg)

  datatype ControlError = IOError | MissingMappingError | ArgumentError(cause: PyError)

  class FuncController {
    /** Function name -> handler. */
    var funcs: map<string, Handler>
    /** The action table as last read from the YAML file. */
    var funcMap: map<string, ActionSpec>

    constructor()
      ensures funcs == map[] && funcMap == map[]
    {
      funcs := map[];
      funcMap := map[];
    }

    /** Registers `h` under `name`, replacing any earlier entry. */
    method Register(name: string, h: Handler)
      modifies this
      ensures funcs == old(funcs)[name := h] && funcMap == old(funcMap)
    {
      funcs := funcs[name := h];
    }

    /** The decorator: registers the implementation under `name` and hands it
        back unchanged. */
    method Dec(name: string, impl: string) returns (r: string)
      modifies this
      ensures r == impl
      ensures funcs == old(funcs)[name := Native(impl)] && funcMap == old(funcMap)
    {
      Register(name, Native(impl));
      r := impl;
    }

    /** Reads the action table (`None` when the file cannot be read, which
        re-raises IOError) and registers a wrapped handler for each entry. */
    method Load(conf: Option<map<string, ActionSpec>>) returns (r: Result<(), ControlError>)
      modifies this
      ensures conf.None? ==> r == Failure(IOError) && funcs == old(funcs) && funcMap == old(funcMap)
      ensures conf.Some? ==> r.Success? && funcMap == conf.value
      ensures conf.Some? ==> forall k | k in conf.value :: k in funcs && funcs[k] == Wrapped(conf.value[k])
      ensures conf.Some? ==> forall k | k in old(funcs) && k !in conf.value :: k in funcs && funcs[k] == old(funcs)[k]
      ensures conf.Some? ==> forall k | k in funcs :: k in conf.value || k in old(funcs)
    {
      if conf.None? {
        return Failure(IOError);
      }
      var table := conf.value;
      funcMap := table;
      var todo := table.Keys;
      ghost var done: set<string> := {};
      while todo != {}
        invariant todo !! done && todo + done == table.Keys && funcMap == table
        invariant forall k | k in done :: k in funcs && funcs[k] == Wrapped(table[k])
        invariant forall k | k in old(funcs) && k !in done :: k in funcs && funcs[k] == old(funcs)[k]
        invariant forall k | k in funcs :: k in done || k in old(funcs)
        decreases |todo|
      {
        var name :| name in todo;
        Register(name, Wrapped(table[name]));
        todo := todo - {name};
        done := done + {name};
      }
      return Success(());
    }

    /** Runs the entry registered under `name` on `msg`; an unknown name
        raises MissingMappingError. */
    method Call(name: string, msg: FuncMsg) returns (r: Result<Invocation, ControlError>)
      ensures r == Failure(MissingMappingError) <==> name !in funcs
      ensures name in funcs && funcs[name].Native? ==> r == Success(RunNative(funcs[name].impl, msg))
      ensures name in funcs && funcs[name].Wrapped? ==>
        var spec := funcs[name].spec;
        && (r.Success? <==> ArgsResolve(spec.argMap, msg))
        && (r.Success? ==> r.value == RunAction(spec.action, ArgSet(spec.argMap, msg)))
    {
      if name !in funcs {
        return Failure(MissingMappingError);
      }
      match funcs[name]
      case Native(impl) =>
        r := Success(RunNative(impl, msg));
      case Wrapped(spec) =>
        var args := BuildArgSet(spec.argMap, msg);
        if args.Failure? {
          r := Failure(ArgumentError(args.error));
        } else {
          r := Success(RunAction(spec.action, args.value));
        }
    }
  }

  /** A decorator registration made after the table is loaded replaces the
      YAML entry of the same name, and the other entries stay as loaded. */
  method LoadThenDecorate(conf: map<string, ActionSpec>, name: string, impl: string)
    returns (c: FuncController, r: Result<Invocation, ControlError>, msg: FuncMsg)
    ensures fresh(c)
    ensures name in c.funcs && c.funcs[name] == Native(impl)
    ensures forall k | k in conf && k != name :: k in c.funcs && c.funcs[k] == Wrapped(conf[k])
    ensures r == Success(RunNative(impl, msg))
  {
    c := new FuncController();
    var loaded := c.Load(Some(conf));
    var back := c.Dec(name, impl);
    msg := FuncMsg(name, map[], map[], 0, 0);
    r := c.Call(name, msg);
  }
}
