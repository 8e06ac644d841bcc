/**
 * Command dispatch: one text line in, one response line out, with the
 * store updated as the command demands. `Apply`, `ApplySet` and `ApplyGet`
 * say what a command answers and leaves behind; `ProcessCommand`,
 * `CmdSet` and `CmdGet` do it on a `Store` and are proved to agree.
 */
module Server {
  import opened Wrappers
  import opened Text
  import opened Storage

  // The exact response strings.
  const Ok := "OK"
  const Nil := "(nil)"
  const ErrEmpty := "ERR Empty command"
  const ErrUnknown := "ERR Unknown command"
  const ErrSetArity := "ERR Wrong number of arguments for SET"
  const ErrGetArity := "ERR Wrong number of arguments for GET"
  const ErrExpire := "ERR Invalid expire time"

  const Errors: set<string> := {ErrEmpty, ErrUnknown, ErrSetArity, ErrGetArity, ErrExpire}

  /** The closed command table. */
  datatype Command = SetCmd | GetCmd

  /** Table lookup on the upper-cased command name. */
  function Lookup(name: string): Option<Command>
  {
    var u := Upper(name);
    if u == "SET" then Some(SetCmd)
    else if u == "GET" then Some(GetCmd)
    else None
  }

  /** What `SET` with arguments `args` answers at `now`, and the map it leaves. */
  function ApplySet(m: map<string, Entry>, args: seq<string>, now: int): (string, map<string, Entry>)
  {
    if |args| < 2 then (ErrSetArity, m)
    else if |args| == 4 && Upper(args[2]) == "EX" then
      match ParseInt(args[3])
      case None => (ErrExpire, m)
      case Some(ttl) =>
        if ttl < 0 then (ErrExpire, m)
        else (Ok, m[args[0] := Entry(args[1], Some(now + ttl))])
    else if |args| != 2 && |args| != 4 then (ErrSetArity, m)
    else (Ok, m[args[0] := Entry(args[1], None)])
  }

  /** What `GET` with arguments `args` answers at `now`, and the map it leaves. */
  function ApplyGet(m: map<string, Entry>, args: seq<string>, now: int): (string, map<string, Entry>)
  {
    if |args| != 1 then (ErrGetArity, m)
    else
      var (r, m') := Read(m, args[0], now);
      (if r.Some? then r.value else Nil, m')
  }

  /** The tokens `process_command` works on: `line.strip().split()`. */
  function Tokens(line: string): seq<string>
  {
    Split(Strip(line))
  }

  /** What a tokenized command answers at `now`, and the map it leaves. */
  function Dispatch(m: map<string, Entry>, parts: seq<string>, now: int): (string, map<string, Entry>)
  {
    if parts == [] then (ErrEmpty, m)
    else
      match Lookup(parts[0])
      case None => (ErrUnknown, m)
      case Some(SetCmd) => ApplySet(m, parts[1..], now)
      case Some(GetCmd) => ApplyGet(m, parts[1..], now)
  }

  /** What a whole command line answers at `now`, and the map it leaves. */
  function Apply(m: map<string, Entry>, line: string, now: int): (string, map<string, Entry>)
  {
    Dispatch(m, Tokens(line), now)
  }

  /** `cmd_set`: validates the arguments, then writes the entry. */
  method CmdSet(store: Store, args: seq<string>, now: int) returns (resp: string)
    modifies store
    ensures (resp, store.data) == ApplySet(old(store.data), args, now)
  {
    if |args| < 2 {
      return ErrSetArity;
    }
    var key, value := args[0], args[1];
    var expireTime: Option<int> := None;
    if |args| == 4 && Upper(args[2]) == "EX" {
      var ttl := ParseInt(args[3]);
      if ttl.None? {
        return ErrExpire;
      }
      if ttl.value < 0 {
        return ErrExpire;
      }
      expireTime := Some(now + ttl.value);
    } else if |args| != 2 && |args| != 4 {
      return ErrSetArity;
    }
    store.Set(key, value, expireTime);
    return Ok;
  }

  /** `cmd_get`: checks the argument count, then reads with lazy expiry. */
  method CmdGet(store: Store, args: seq<string>, now: int) returns (resp: string)
    modifies store
    ensures (resp, store.data) == ApplyGet(old(store.data), args, now)
  {
    if |args| != 1 {
      return ErrGetArity;
    }
    var r := store.Get(args[0], now);
    resp := if r.Some? then r.value else Nil;
  }

  /** `process_command`: tokenizes, dispatches on the command name, answers. */
  method ProcessCommand(store: Store, line: string, now: int) returns (resp: string)
    modifies store
    ensures (resp, store.data) == Apply(old(store.data), line, now)
  {
    var parts := Tokens(line);
    if parts == [] {
      return ErrEmpty;
    }
    var cmd, args := parts[0], parts[1..];
    var handler := Lookup(cmd);
    if handler.None? {
      return ErrUnknown;
    }
    match handler.value
    case SetCmd => resp := CmdSet(store, args, now);
    case GetCmd => resp := CmdGet(store, args, now);
  }
}
