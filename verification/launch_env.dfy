/** The environment `opusctl process launch` gives the program it starts:
    the interposition library preloaded, the address of the backend, and
    four fixed settings of the library. */
module LaunchEnv {
  import opened Common
  import opened PosixArgs

  /** Python's `s[:n]`. */
  function Take(s: string, n: nat): (r: string)
    ensures |r| == if |s| < n then |s| else n
    ensures r <= s
  {
    if |s| <= n then s else s[..n]
  }

  /** Python's `s[n:]`: what `Take` leaves. */
  function Drop(s: string, n: nat): (r: string)
    ensures Take(s, n) + r == s
  {
    if |s| <= n then [] else s[n..]
  }

  /** Python's `s.split(c)`: the pieces between the separators, at least
      one and none holding a separator. */
  function Split(s: string, c: char): (r: seq<string>)
    ensures |r| >= 1
    ensures forall i | 0 <= i < |r| :: c !in r[i]
    ensures |r| == 1 <==> c !in s
  {
    if s == [] then [[]]
    else
      var rest := Split(s[1..], c);
      assert s == [s[0]] + s[1..];
      if s[0] == c then [[]] + rest
      else [[s[0]] + rest[0]] + rest[1..]
  }

  /** `c.join(parts)`. */
  function Join(parts: seq<string>, c: char): string
    requires |parts| >= 1
  {
    if |parts| == 1 then parts[0] else parts[0] + [c] + Join(parts[1..], c)
  }

  /** Joining the pieces of a split gives the string back. */
  lemma {:induction false} SplitJoin(s: string, c: char)
    ensures Join(Split(s, c), c) == s
  {
    if s != [] {
      var rest := Split(s[1..], c);
      SplitJoin(s[1..], c);
      if s[0] == c {
        assert Split(s, c)[1..] == rest;
      } else {
        var r := Split(s, c);
        assert r[0] == [s[0]] + rest[0];
        if |rest| > 1 {
          assert r[1..] == rest[1..];
          ConcatAssoc([s[0]], rest[0], [c] + Join(rest[1..], c));
        }
      }
    }
  }

  /** Splitting a piece free of separators in front of `t` extends the first
      piece of `t`'s split. */
  lemma {:induction false} SplitPrefix(p: string, t: string, c: char)
    requires c !in p
    ensures Split(p + t, c) == [p + Split(t, c)[0]] + Split(t, c)[1..]
  {
    var st := Split(t, c);
    if p != [] {
      assert (p + t)[0] == p[0] && (p + t)[1..] == p[1..] + t;
      SplitPrefix(p[1..], t, c);
      var rest := Split(p[1..] + t, c);
      assert rest[0] == p[1..] + st[0] && rest[1..] == st[1..];
      ConcatAssoc([p[0]], p[1..], st[0]);
      assert [p[0]] + p[1..] == p;
    } else {
      assert p + t == t && p + st[0] == st[0];
      assert st == [st[0]] + st[1..];
    }
  }

  /** Splitting joined pieces that hold no separator gives the pieces back. */
  lemma {:induction false} JoinSplit(parts: seq<string>, c: char)
    requires |parts| >= 1
    requires forall i | 0 <= i < |parts| :: c !in parts[i]
    ensures Split(Join(parts, c), c) == parts
  {
    if |parts| == 1 {
      SplitPrefix(parts[0], [], c);
      assert Split([], c) == [[]];
      assert parts[0] + [] == parts[0];
    } else {
      var tail := Join(parts[1..], c);
      JoinSplit(parts[1..], c);
      assert ([c] + tail)[1..] == tail;
      assert Split([c] + tail, c) == [[]] + parts[1..];
      ConcatAssoc(parts[0], [c], tail);
      SplitPrefix(parts[0], [c] + tail, c);
      var st := Split([c] + tail, c);
      assert st[0] == [] && st[1..] == parts[1..];
      assert parts[0] + [] == parts[0];
      assert parts == [parts[0]] + parts[1..];
    }
  }

  /** The text before the first separator and the text between the first
      and the second: fields 0 and 1 of a split, as plain string facts. */
  lemma FirstTwoFields(s: string, c: char)
    requires |Split(s, c)| >= 2
    ensures var parts := Split(s, c);
      var n := |parts[0]| + 1 + |parts[1]|;
      && n <= |s| && s[..n] == parts[0] + [c] + parts[1]
      && (n == |s| || s[n] == c)
  {
    var parts := Split(s, c);
    SplitJoin(s, c);
    var n := |parts[0]| + 1 + |parts[1]|;
    if |parts| == 2 {
      assert Join(parts[1..], c) == parts[1];
      assert s == parts[0] + [c] + parts[1];
    } else {
      assert parts[1..][1..] == parts[2..];
      assert Join(parts[1..], c) == parts[1] + [c] + Join(parts[2..], c);
      var rest := Join(parts[2..], c);
      assert s == parts[0] + [c] + (parts[1] + [c] + rest);
      assert s == (parts[0] + [c] + parts[1]) + ([c] + rest);
    }
  }

  const PreloadKey := "LD_PRELOAD"
  const UdsPathKey := "OPUS_UDS_PATH"
  const CommModeKey := "OPUS_PROV_COMM_MODE"
  const TcpAddressKey := "OPUS_TCP_ADDRESS"
  const TcpPortKey := "OPUS_TCP_PORT"
  const MsgAggrKey := "OPUS_MSG_AGGR"
  const MaxAggrKey := "OPUS_MAX_AGGR_MSG_SIZE"
  const LogLevelKey := "OPUS_LOG_LEVEL"
  const InterposeKey := "OPUS_INTERPOSE_MODE"

  /** The variables that say where the backend is. */
  const AddrKeys: set<string> := {UdsPathKey, CommModeKey, TcpAddressKey, TcpPortKey}

  /** The four settings every launch fixes: aggregation on, 64 KiB
      aggregates, critical logging only, and the lite interposition mode. */
  const Fixed: map<string, string> :=
    map[MsgAggrKey := "1", MaxAggrKey := "65536", LogLevelKey := "3", InterposeKey := "1"]

  /** No variable a launch sets is set twice for two purposes. */
  lemma KeysApart()
    ensures PreloadKey !in AddrKeys && PreloadKey !in Fixed
    ensures AddrKeys !! Fixed.Keys
    ensures UdsPathKey != CommModeKey && CommModeKey != TcpAddressKey
    ensures CommModeKey != TcpPortKey && TcpAddressKey != TcpPortKey
  {
    assert MsgAggrKey[5] != UdsPathKey[5] && MsgAggrKey[5] != TcpPortKey[5];
    assert InterposeKey[5] != CommModeKey[5];
  }

  /** Whether a server address names a Unix domain socket. */
  predicate IsUnix(serverAddr: string) {
    Take(serverAddr, 4) == "unix"
  }

  /** `host` and `port` are the text before the first colon of `rest` and
      the text between its first and second colon. */
  predicate HostPort(rest: string, host: string, port: string) {
    var n := |host| + 1 + |port|;
    && ':' !in host && ':' !in port
    && n <= |rest| && rest[..n] == host + ":" + port
    && (n == |rest| || rest[n] == ':')
  }

  /** LD_PRELOAD as the launched program sees it: the library alone when
      there was none, the old list when it already names the library, and
      otherwise the old list with the library appended after a space. */
  function PreloadFor(current: Option<string>, lib: string): (r: string)
    ensures Contains(r, lib)
    ensures current.Some? ==> current.value <= r
    ensures current.Some? && Contains(current.value, lib) ==> r == current.value
    ensures current.Some? && !Contains(current.value, lib) ==> r == current.value + " " + lib
  {
    match current
    case None =>
      assert OccursAt(lib, lib, 0);
      lib
    case Some(v) =>
      if Contains(v, lib) then v
      else
        var r := v + " " + lib;
        assert r[|v| + 1..] == lib;
        assert OccursAt(r, lib, |v| + 1);
        r
  }

  /** Launching from a launched environment preloads nothing more. */
  lemma PreloadIdempotent(current: Option<string>, lib: string)
    ensures PreloadFor(Some(PreloadFor(current, lib)), lib) == PreloadFor(current, lib)
  {
  }

  /** `os.environ.get(k)`. */
  function Lookup(env: map<string, string>, k: string): Option<string> {
    if k in env then Some(env[k]) else None
  }

  /** `extra_env` after the LD_PRELOAD step: an entry only when an existing
      LD_PRELOAD lacks the library. */
  function PreloadExtra(env: map<string, string>, lib: string): map<string, string> {
    if PreloadKey in env && !Contains(env[PreloadKey], lib) then map[][PreloadKey := env[PreloadKey] + " " + lib]
    else map[]
  }

  /** `os.environ` after the LD_PRELOAD step: the library is set directly
      when there was no LD_PRELOAD. */
  function PreloadSet(env: map<string, string>, lib: string): map<string, string> {
    if PreloadKey in env then env else env[PreloadKey := lib]
  }

  /** `extra_env` after the address step: for `unix://path` the normalised
      path and the mode "unix"; otherwise the first three characters as the
      mode and the host and port of `tcp://host:port`.  A TCP address
      without a port raises IndexError. */
  function WithAddr(extra: map<string, string>, serverAddr: string, normalise: string -> string): (r: Result<map<string, string>, PyError>)
    ensures r.Failure? <==> !IsUnix(serverAddr) && ':' !in Drop(serverAddr, 6)
    ensures r.Failure? ==> r.error == IndexError
    ensures r.Success? ==> forall k | k !in AddrKeys :: (k in r.value <==> k in extra) && (k in extra ==> r.value[k] == extra[k])
    ensures r.Success? && IsUnix(serverAddr) ==>
      && r.value.Keys == extra.Keys + {UdsPathKey, CommModeKey}
      && r.value[UdsPathKey] == normalise(Drop(serverAddr, 7)) && r.value[CommModeKey] == "unix"
    ensures r.Success? && !IsUnix(serverAddr) ==>
      && r.value.Keys == extra.Keys + {CommModeKey, TcpAddressKey, TcpPortKey}
      && r.value[CommModeKey] == Take(serverAddr, 3)
      && HostPort(Drop(serverAddr, 6), r.value[TcpAddressKey], r.value[TcpPortKey])
  {
    KeysApart();
    if IsUnix(serverAddr) then
      Success(extra[UdsPathKey := normalise(Drop(serverAddr, 7))][CommModeKey := Take(serverAddr, 4)])
    else
      var addr := Split(Drop(serverAddr, 6), ':');
      if |addr| < 2 then Failure(IndexError)
      else
        FirstTwoFields(Drop(serverAddr, 6), ':');
        Success(extra[CommModeKey := Take(serverAddr, 3)][TcpAddressKey := addr[0]][TcpPortKey := addr[1]])
  }

  /** `extra_env` after the four fixed settings. */
  function WithFixed(extra: map<string, string>): (r: map<string, string>)
    ensures r.Keys == extra.Keys + Fixed.Keys
    ensures forall k | k in Fixed :: r[k] == Fixed[k]
    ensures forall k | k !in Fixed && k in extra :: r[k] == extra[k]
  {
    extra[MsgAggrKey := "1"][MaxAggrKey := "65536"][LogLevelKey := "3"][InterposeKey := "1"]
  }

  /** What a launch does to the environment, and whether it raises. */
  function Launched(env: map<string, string>, lib: string, serverAddr: string, normalise: string -> string): (r: (Result<(), PyError>, map<string, string>))
    ensures r.0.Failure? <==> !IsUnix(serverAddr) && ':' !in Drop(serverAddr, 6)
    ensures r.0.Failure? ==> r.0.error == IndexError
  {
    match WithAddr(PreloadExtra(env, lib), serverAddr, normalise)
    case Failure(e) => (Failure(e), PreloadSet(env, lib))
    case Success(extra) => (Success(()), PreloadSet(env, lib) + WithFixed(extra))
  }

  /** After a launch LD_PRELOAD names the library, keeping what was there;
      a launch that raises has still set an absent LD_PRELOAD. */
  lemma LaunchPreloads(env: map<string, string>, lib: string, serverAddr: string, normalise: string -> string)
    ensures var r := Launched(env, lib, serverAddr, normalise);
      r.0.Success? ==> PreloadKey in r.1 && r.1[PreloadKey] == PreloadFor(Lookup(env, PreloadKey), lib)
    ensures var r := Launched(env, lib, serverAddr, normalise);
      r.0.Failure? ==> PreloadKey in r.1 && r.1[PreloadKey] == (if PreloadKey in env then env[PreloadKey] else lib)
  {
    KeysApart();
    var w := WithAddr(PreloadExtra(env, lib), serverAddr, normalise);
    if w.Success? {
      var e := WithFixed(w.value);
      assert PreloadKey in e <==> PreloadKey in PreloadExtra(env, lib);
    }
  }

  /** A launch that succeeds sets the four fixed settings. */
  lemma LaunchFixes(env: map<string, string>, lib: string, serverAddr: string, normalise: string -> string)
    ensures var r := Launched(env, lib, serverAddr, normalise);
      r.0.Success? ==> forall k | k in Fixed :: k in r.1 && r.1[k] == Fixed[k]
  {
  }

  /** A launch that succeeds tells the library where the backend is. */
  lemma LaunchAddresses(env: map<string, string>, lib: string, serverAddr: string, normalise: string -> string)
    ensures var r := Launched(env, lib, serverAddr, normalise);
      r.0.Success? && IsUnix(serverAddr) ==>
        && UdsPathKey in r.1 && r.1[UdsPathKey] == normalise(Drop(serverAddr, 7))
        && CommModeKey in r.1 && r.1[CommModeKey] == "unix"
    ensures var r := Launched(env, lib, serverAddr, normalise);
      r.0.Success? && !IsUnix(serverAddr) ==>
        && CommModeKey in r.1 && r.1[CommModeKey] == Take(serverAddr, 3)
        && TcpAddressKey in r.1 && TcpPortKey in r.1
        && HostPort(Drop(serverAddr, 6), r.1[TcpAddressKey], r.1[TcpPortKey])
  {
    KeysApart();
  }

  /** A launch leaves every other variable as it was, whether or not it
      raises. */
  lemma LaunchKeepsOthers(env: map<string, string>, lib: string, serverAddr: string, normalise: string -> string, k: string)
    requires k != PreloadKey && k !in AddrKeys && k !in Fixed
    ensures var r := Launched(env, lib, serverAddr, normalise);
      (k in r.1 <==> k in env) && (k in env ==> r.1[k] == env[k])
  {
    var w := WithAddr(PreloadExtra(env, lib), serverAddr, normalise);
    if w.Success? {
      assert k !in WithFixed(w.value);
    }
  }

  /** A second launch from inside a launched program leaves LD_PRELOAD as
      the first one set it. */
  lemma RelaunchKeepsPreload(env: map<string, string>, lib: string, serverAddr: string, normalise: string -> string)
    requires Launched(env, lib, serverAddr, normalise).0.Success?
    ensures var env1 := Launched(env, lib, serverAddr, normalise).1;
      PreloadKey in env1 && Launched(env1, lib, serverAddr, normalise).1[PreloadKey] == env1[PreloadKey]
  {
    var env1 := Launched(env, lib, serverAddr, normalise).1;
    LaunchPreloads(env, lib, serverAddr, normalise);
    LaunchPreloads(env1, lib, serverAddr, normalise);
    PreloadIdempotent(Lookup(env, PreloadKey), lib);
  }

  /** The process environment. */
  class Environ {
    var vars: map<string, string>

    constructor(vars: map<string, string>)
      ensures this.vars == vars
    {
      this.vars := vars;
    }
  }

  /** `handle_launch` up to the `exec`: `libPath` is the configured
      `libopus_path`, `serverAddr` the configured `server_addr` and
      `normalise` is `path_normalise`. */
  method HandleLaunch(env: Environ, libPath: string, serverAddr: string, normalise: string -> string) returns (r: Result<(), PyError>)
    modifies env
    ensures (r, env.vars) == Launched(old(env.vars), normalise(libPath), serverAddr, normalise)
  {
    var lib := normalise(libPath);
    var extra: map<string, string> := map[];
    if PreloadKey in env.vars {
      if !Contains(env.vars[PreloadKey], lib) {
        extra := extra[PreloadKey := env.vars[PreloadKey] + " " + lib];
      }
    } else {
      env.vars := env.vars[PreloadKey := lib];
    }
    if Take(serverAddr, 4) == "unix" {
      extra := extra[UdsPathKey := normalise(Drop(serverAddr, 7))];
      extra := extra[CommModeKey := Take(serverAddr, 4)];
    } else {
      extra := extra[CommModeKey := Take(serverAddr, 3)];
      var addr := Split(Drop(serverAddr, 6), ':');
      extra := extra[TcpAddressKey := addr[0]];
      if |addr| < 2 {
        return Failure(IndexError);
      }
      extra := extra[TcpPortKey := addr[1]];
    }
    extra := extra[MsgAggrKey := "1"];
    extra := extra[MaxAggrKey := "65536"];
    extra := extra[LogLevelKey := "3"];
    extra := extra[InterposeKey := "1"];
    env.vars := env.vars + extra;
    return Success(());
  }
}
