/** The table of client query methods: handlers registered by name, and
    the dispatch of a query message to the handler its `qry_method` names. */
module ClientQuery {
  import opened Common

  const MethodKey := "qry_method"
  const ArgsKey := "qry_args"
  const InvalidCommand := "Invalid query command"

  /** What a Python dispatch can raise: a message without the key it reads,
      or a name the module never defines. */
  datatype QueryError = KeyError | NameError

  /** What a dispatch gives back: a reply made here, or the call of a
      registered handler on the query's arguments (the handlers themselves
      are not part of this model). */
  datatype Outcome<H> = Reply(success: bool, msg: string) | Call(handler: H, args: string)

  /** `exec_method` as written: an unknown method gets the failure reply, a
      registered one reaches the `logging` call of a module that never
      imports `logging`. */
  function ExecAsWritten<H>(methods: map<string, H>, msg: map<string, string>): (r: Result<Outcome<H>, QueryError>)
    ensures r == Failure(KeyError) <==> MethodKey !in msg
    ensures r == Failure(NameError) <==> MethodKey in msg && msg[MethodKey] in methods
    ensures r.Success? <==> MethodKey in msg && msg[MethodKey] !in methods
    ensures r.Success? ==> r.value == Reply(false, InvalidCommand)
  {
    if MethodKey !in msg then Failure(KeyError)
    else if msg[MethodKey] in methods then Failure(NameError)
    else Success(Reply(false, InvalidCommand))
  }

  /** `exec_method` as its authors meant it: a registered method is called
      on the query's arguments, an unknown one gets the failure reply. */
  function Exec<H>(methods: map<string, H>, msg: map<string, string>): (r: Result<Outcome<H>, QueryError>)
    ensures r.Failure? ==> r.error == KeyError
    ensures r.Failure? <==> MethodKey !in msg || (msg[MethodKey] in methods && ArgsKey !in msg)
    ensures r.Success? && r.value.Reply? <==> MethodKey in msg && msg[MethodKey] !in methods
    ensures r.Success? && r.value.Reply? ==> r.value == Reply(false, InvalidCommand)
    ensures r.Success? && r.value.Call? ==>
      && msg[MethodKey] in methods
      && r.value.handler == methods[msg[MethodKey]] && r.value.args == msg[ArgsKey]
  {
    if MethodKey !in msg then Failure(KeyError)
    else if msg[MethodKey] in methods then
      if ArgsKey in msg then Success(Call(methods[msg[MethodKey]], msg[ArgsKey]))
      else Failure(KeyError)
    else Success(Reply(false, InvalidCommand))
  }

  /** A query for a method just registered reaches that method, whatever
      was registered under the name before. */
  lemma RegisterThenExec<H>(methods: map<string, H>, name: string, m: H, msg: map<string, string>)
    requires MethodKey in msg && msg[MethodKey] == name && ArgsKey in msg
    ensures Exec(methods[name := m], msg) == Success(Call(m, msg[ArgsKey]))
  {
  }

  /** Registering a name changes nothing for queries of other names. */
  lemma RegisterKeepsOthers<H>(methods: map<string, H>, name: string, m: H, msg: map<string, string>)
    requires MethodKey in msg && msg[MethodKey] != name
    ensures Exec(methods[name := m], msg) == Exec(methods, msg)
  {
  }

  /** The two agree everywhere except on registered methods, which the code
      as written never reaches. */
  lemma AsWrittenAgreesOffTable<H>(methods: map<string, H>, msg: map<string, string>)
    ensures MethodKey !in msg || msg[MethodKey] !in methods ==> ExecAsWritten(methods, msg) == Exec(methods, msg)
    ensures ExecAsWritten(methods, msg).Success? ==> ExecAsWritten(methods, msg).value.Reply?
  {
  }

  /** A registered method with its arguments: the code as written raises
      NameError where the intended dispatch calls the handler. */
  lemma RegisteredUnreachable<H>(h: H)
    ensures var methods := map["q" := h];
      var msg := map[MethodKey := "q", ArgsKey := ""];
      && ExecAsWritten(methods, msg) == Failure(NameError)
      && Exec(methods, msg) == Success(Call(h, ""))
  {
    var msg := map[MethodKey := "q", ArgsKey := ""];
    assert MethodKey != ArgsKey;
    assert msg[MethodKey] == "q";
  }

  /** `ClientQueryControl`: the class-level table of query methods. */
  class ClientQueryControl<H> {
    var methods: map<string, H>

    constructor()
      ensures methods == map[]
    {
      methods := map[];
    }

    /** `register_query_method(name)(m)`: stores `m` under `name`, replacing
        any earlier method of that name, and hands `m` back unchanged. */
    method Register(name: string, m: H) returns (r: H)
      modifies this
      ensures r == m
      ensures methods == old(methods)[name := m]
    {
      methods := methods[name := m];
      r := m;
    }

    /** `exec_method`: a lookup that leaves the table as it is. */
    method ExecMethod(msg: map<string, string>) returns (r: Result<Outcome<H>, QueryError>)
      ensures r == ExecAsWritten(methods, msg)
    {
      if MethodKey !in msg {
        return Failure(KeyError);
      }
      if msg[MethodKey] in methods {
        return Failure(NameError);
      }
      return Success(Reply(false, InvalidCommand));
    }
  }
}
