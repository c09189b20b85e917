/** Function-call messages and the argument mappings of the POSIX action
    table: how one argument of a PVM action is drawn out of an intercepted
    call's message, and how the descriptor an I/O call operates on is found. */
module PosixArgs {
  import opened Common

  /** The exceptions these helpers raise. */
  datatype PyError = IndexError | KeyError | TypeError | ValueError

  /** A decoded function-call message: the call's name, its key/value
      arguments, the optional scalar fields that are set, its return value and
      its begin time. */
  datatype FuncMsg = FuncMsg(
    funcName: string,
    args: map<string, string>,
    fields: map<string, string>,
    retVal: int,
    beginTime: int)

  /** One entry of the action table: the action to run and, per action
      argument, the mapping (a YAML list such as `[msg_arg, fd]`) that says
      where its value comes from. */
  datatype ActionSpec = ActionSpec(action: string, argMap: map<string, seq<string>>)

  // ---------------------------------------------------------------------------
  // Decimal rendering of the return value (Python's str on an int)
  // ---------------------------------------------------------------------------

  function DigitChar(d: nat): char
    requires d < 10
  {
    "0123456789"[d]
  }

  function DigitValue(ch: char): int {
    ch as int - '0' as int
  }

  /** The decimal digits of `n`, without leading zeros. */
  function NatToString(n: nat): (s: string)
    ensures |s| >= 1
    ensures forall k | 0 <= k < |s| :: '0' <= s[k] <= '9'
    decreases n
  {
    if n < 10 then [DigitChar(n)] else NatToString(n / 10) + [DigitChar(n % 10)]
  }

  /** The decimal rendering of `n`: a minus sign exactly for a negative
      number, then digits only. */
  function IntToString(n: int): (r: string)
    ensures |r| >= 1 && (r[0] == '-' <==> n < 0)
    ensures forall k | (if n < 0 then 1 else 0) <= k < |r| :: '0' <= r[k] <= '9'
  {
    if n < 0 then "-" + NatToString(-n) else NatToString(n)
  }

  /** Reads a string of decimal digits, most significant first. */
  function ParseNat(s: string): int {
    if s == [] then 0 else 10 * ParseNat(s[..|s| - 1]) + DigitValue(s[|s| - 1])
  }

  /** Reads an optionally signed decimal, as Python's int on a str. */
  function ParseInt(s: string): int {
    if |s| > 0 && s[0] == '-' then -ParseNat(s[1..]) else ParseNat(s)
  }

  lemma {:induction false} NatRoundTrip(n: nat)
    ensures ParseNat(NatToString(n)) == n
    decreases n
  {
    if n >= 10 {
      var s := NatToString(n);
      NatRoundTrip(n / 10);
      assert s[..|s| - 1] == NatToString(n / 10);
    }
  }

  /** Rendering the return value and reading it back gives it back. */
  lemma IntRoundTrip(n: int)
    ensures ParseInt(IntToString(n)) == n
  {
    NatRoundTrip(if n < 0 then -n else n);
    if n < 0 {
      assert ("-" + NatToString(-n))[1..] == NatToString(-n);
    } else {
      assert NatToString(n)[0] != '-';
    }
  }

  // ---------------------------------------------------------------------------
  // _parse_mapping and get_fd_from_msg
  // ---------------------------------------------------------------------------

  /** The value one argument mapping draws from `msg`.  `msg_arg` reads a
      call argument and raises KeyError when it is missing; `msg_field` reads
      an optional field and gives None when it is unset; `ret_val` renders the
      return value; `const` gives the mapping's own value; any other kind
      falls through to None.  Indexing a mapping list that is too short
      raises IndexError. */
  function ParseMapping(msg: FuncMsg, mapping: seq<string>): (r: Result<Option<string>, PyError>)
    ensures r.Failure? <==>
      || mapping == []
      || (mapping[0] in {"msg_arg", "msg_field", "const"} && |mapping| < 2)
      || (mapping[0] == "msg_arg" && |mapping| >= 2 && mapping[1] !in msg.args)
    ensures r.Success? && r.value.Some? && mapping[0] == "msg_arg" ==> r.value.value == msg.args[mapping[1]]
    ensures r.Success? && mapping[0] == "msg_field" ==> (r.value.None? <==> mapping[1] !in msg.fields)
    ensures r.Success? && mapping[0] == "msg_field" && mapping[1] in msg.fields ==> r.value == Some(msg.fields[mapping[1]])
    ensures r.Success? && mapping[0] == "const" ==> r.value == Some(mapping[1])
    ensures r.Success? && mapping[0] == "ret_val" ==> r.value.Some? && ParseInt(r.value.value) == msg.retVal
    ensures r.Success? && r.value.None? ==> mapping[0] == "msg_field" || mapping[0] !in {"msg_arg", "ret_val", "const"}
  {
    if mapping == [] then Failure(IndexError)
    else if mapping[0] == "msg_arg" then
      if |mapping| < 2 then Failure(IndexError)
      else if mapping[1] in msg.args then Success(Some(msg.args[mapping[1]]))
      else Failure(KeyError)
    else if mapping[0] == "msg_field" then
      if |mapping| < 2 then Failure(IndexError)
      else if mapping[1] in msg.fields then Success(Some(msg.fields[mapping[1]]))
      else Success(None)
    else if mapping[0] == "ret_val" then
      IntRoundTrip(msg.retVal);
      Success(Some(IntToString(msg.retVal)))
    else if mapping[0] == "const" then
      if |mapping| < 2 then Failure(IndexError) else Success(Some(mapping[1]))
    else Success(None)
  }

  /** The descriptor an I/O call operates on: the `filedes` argument mapping
      of the call's action-table entry, applied to the message.  A call with
      no entry, or an entry with no `filedes` mapping, raises KeyError. */
  function GetFdFromMsg(funcMap: map<string, ActionSpec>, msg: FuncMsg): (r: Result<Option<string>, PyError>)
    ensures msg.funcName !in funcMap ==> r == Failure(KeyError)
    ensures msg.funcName in funcMap && "filedes" !in funcMap[msg.funcName].argMap ==> r == Failure(KeyError)
    ensures msg.funcName in funcMap && "filedes" in funcMap[msg.funcName].argMap
      ==> r == ParseMapping(msg, funcMap[msg.funcName].argMap["filedes"])
  {
    if msg.funcName !in funcMap then Failure(KeyError)
    else if "filedes" !in funcMap[msg.funcName].argMap then Failure(KeyError)
    else ParseMapping(msg, funcMap[msg.funcName].argMap["filedes"])
  }

  // ---------------------------------------------------------------------------
  // wrap_action: the argument set handed to the action
  // ---------------------------------------------------------------------------

  /** Every mapping of the action succeeds on `msg`. */
  predicate ArgsResolve(argMap: map<string, seq<string>>, msg: FuncMsg) {
    forall k | k in argMap :: ParseMapping(msg, argMap[k]).Success?
  }

  /** The argument set of a wrapped action: every action argument bound to the
      value its mapping draws from the message. */
  function ArgSet(argMap: map<string, seq<string>>, msg: FuncMsg): map<string, Option<string>>
    requires ArgsResolve(argMap, msg)
  {
    map k | k in argMap :: ParseMapping(msg, argMap[k]).value
  }

  /** The loop of wrap_action's inner function, key by key: the argument set
      when every mapping resolves, and the exception of a failing mapping
      otherwise. */
  method BuildArgSet(argMap: map<string, seq<string>>, msg: FuncMsg) returns (r: Result<map<string, Option<string>>, PyError>)
    ensures r.Success? <==> ArgsResolve(argMap, msg)
    ensures r.Success? ==> r.value.Keys == argMap.Keys && r.value == ArgSet(argMap, msg)
    ensures r.Failure? ==> exists k | k in argMap :: ParseMapping(msg, argMap[k]) == Failure(r.error)
  {
    var argSet: map<string, Option<string>> := map[];
    var todo := argMap.Keys;
    while todo != {}
      invariant todo <= argMap.Keys
      invariant argSet.Keys == argMap.Keys - todo
      invariant forall k | k in argSet :: ParseMapping(msg, argMap[k]) == Success(argSet[k])
      decreases |todo|
    {
      var k :| k in todo;
      var v := ParseMapping(msg, argMap[k]);
      if v.Failure? {
        return Failure(v.error);
      }
      argSet := argSet[k := v.value];
      todo := todo - {k};
    }
    return Success(argSet);
  }
}
