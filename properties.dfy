/**
 * What the cache promises its clients, stated over `Apply`: the answer to
 * every kind of malformed line, the TTL rules, full replacement on SET,
 * and that the reaper never changes what a client can observe.
 */
module Properties {
  import opened Wrappers
  import opened Text
  import opened Storage
  import opened Server

  /** Keys and values as the tokenizer produces them: non-empty, no whitespace. */
  predicate WellFormed(m: map<string, Entry>)
  {
    forall k :: k in m ==> IsWord(k) && IsWord(m[k].value)
  }

  /** A reaper pass only removes entries, so a store of words stays a store of words. */
  lemma SweptKeepsWellFormed(m: map<string, Entry>, now: int)
    requires WellFormed(m)
    ensures WellFormed(Swept(m, now))
  {
  }

  /** A line is dispatched on its words: leading, trailing and repeated whitespace play no part. */
  lemma ApplyIsDispatch(m: map<string, Entry>, line: string, now: int)
    ensures Apply(m, line, now) == Dispatch(m, Split(line), now)
  {
    SplitOfStrip(line);
  }

  // ------------------------------------------------------------ command names

  lemma UpperOfThree(s: string, w: string)
    requires |w| == 3
    ensures Upper(s) == w <==> |s| == 3 && UpperChar(s[0]) == w[0] && UpperChar(s[1]) == w[1] && UpperChar(s[2]) == w[2]
  {
    if |s| == 3 && UpperChar(s[0]) == w[0] && UpperChar(s[1]) == w[1] && UpperChar(s[2]) == w[2] {
      assert Upper(s) == [w[0], w[1], w[2]] == w;
    }
  }

  /** `SET` is recognised in any letter case (and with the long s, which Python upper-cases to S). */
  lemma LookupSet(name: string)
    ensures Lookup(name) == Some(SetCmd) <==>
      && |name| == 3
      && (name[0] == 's' || name[0] == 'S' || name[0] == '\U{17F}')
      && (name[1] == 'e' || name[1] == 'E')
      && (name[2] == 't' || name[2] == 'T')
  {
    UpperOfThree(name, "SET");
  }

  /** `GET` is recognised in any letter case. */
  lemma LookupGet(name: string)
    ensures Lookup(name) == Some(GetCmd) <==>
      && |name| == 3
      && (name[0] == 'g' || name[0] == 'G')
      && (name[1] == 'e' || name[1] == 'E')
      && (name[2] == 't' || name[2] == 'T')
  {
    UpperOfThree(name, "GET");
    UpperOfThree(name, "SET");
  }

  /** The `EX` keyword of `SET` is matched in any letter case. */
  lemma ExKeyword(s: string)
    ensures Upper(s) == "EX" <==> |s| == 2 && (s[0] == 'e' || s[0] == 'E') && (s[1] == 'x' || s[1] == 'X')
  {
    var u := Upper(s);
    if |s| == 2 {
      assert u[0] == UpperChar(s[0]) && u[1] == UpperChar(s[1]);
      if (s[0] == 'e' || s[0] == 'E') && (s[1] == 'x' || s[1] == 'X') {
        assert u == ['E', 'X'];
      }
    }
  }

  // ------------------------------------------------------------ malformed lines

  /** Tokens as `split()` yields them. */
  predicate AllWords(parts: seq<string>)
  {
    forall i :: 0 <= i < |parts| ==> IsWord(parts[i])
  }

  /** No command with at least one token answers `ERR Empty command`: every other answer is a different constant or a stored word. */
  lemma DispatchNotEmpty(m: map<string, Entry>, parts: seq<string>, now: int)
    requires WellFormed(m) && parts != []
    ensures Dispatch(m, parts, now).0 != ErrEmpty
  {
    assert ErrEmpty[3] == ' ';
    var args := parts[1..];
    if |args| == 1 && args[0] in m {
      assert IsWord(m[args[0]].value);
    }
  }

  /** A blank line answers `ERR Empty command` and nothing else does; the store is untouched. */
  lemma EmptyLine(m: map<string, Entry>, line: string, now: int)
    requires WellFormed(m)
    ensures Apply(m, line, now).0 == ErrEmpty <==> AllSpace(line)
    ensures AllSpace(line) ==> Apply(m, line, now).1 == m
  {
    ApplyIsDispatch(m, line, now);
    if Split(line) != [] {
      DispatchNotEmpty(m, Split(line), now);
    }
  }

  /** An unrecognised command name answers `ERR Unknown command` and nothing else does; the store is untouched. */
  lemma UnknownCommand(m: map<string, Entry>, parts: seq<string>, now: int)
    requires WellFormed(m) && parts != []
    ensures Dispatch(m, parts, now).0 == ErrUnknown <==> Lookup(parts[0]).None?
    ensures Lookup(parts[0]).None? ==> Dispatch(m, parts, now).1 == m
  {
    assert ErrUnknown[3] == ' ';
    var args := parts[1..];
    if |args| == 1 && args[0] in m {
      assert IsWord(m[args[0]].value);
    }
  }

  /** `SET` with 0, 1, 3 or more than 4 arguments (tokens after the command name) answers the arity error and changes nothing. */
  lemma SetArity(m: map<string, Entry>, parts: seq<string>, now: int)
    requires parts != [] && Lookup(parts[0]) == Some(SetCmd)
    requires |parts| < 3 || |parts| == 4 || |parts| > 5
    ensures Dispatch(m, parts, now) == (ErrSetArity, m)
  {
  }

  /** `SET k v` answers `OK` and replaces whatever was under `k` by `v` with no expiry. */
  lemma SetTwoArgs(m: map<string, Entry>, c: string, k: string, v: string, now: int)
    requires Lookup(c) == Some(SetCmd)
    ensures Dispatch(m, [c, k, v], now) == (Ok, m[k := Entry(v, None)])
  {
    assert [c, k, v][1..] == [k, v];
  }

  /** A four-argument `SET` whose third token is not `EX` is accepted and stores the value with no expiry. */
  lemma SetFourWithoutEx(m: map<string, Entry>, c: string, k: string, v: string, x: string, t: string, now: int)
    requires Lookup(c) == Some(SetCmd) && Upper(x) != "EX"
    ensures Dispatch(m, [c, k, v, x, t], now) == (Ok, m[k := Entry(v, None)])
  {
    assert [c, k, v, x, t][1..] == [k, v, x, t];
  }

  /**
   * `SET k v EX t`: when `t` is not an integer or is negative, answers
   * `ERR Invalid expire time` and changes nothing; otherwise answers `OK`
   * and stores `v` expiring `t` seconds after `now`.
   */
  lemma SetWithExpiry(m: map<string, Entry>, c: string, k: string, v: string, x: string, t: string, now: int)
    requires Lookup(c) == Some(SetCmd) && Upper(x) == "EX"
    ensures ParseInt(t).None? || ParseInt(t).value < 0 ==>
      Dispatch(m, [c, k, v, x, t], now) == (ErrExpire, m)
    ensures ParseInt(t).Some? && ParseInt(t).value >= 0 ==>
      Dispatch(m, [c, k, v, x, t], now) == (Ok, m[k := Entry(v, Some(now + ParseInt(t).value))])
  {
    assert [c, k, v, x, t][1..] == [k, v, x, t];
  }

  /** `GET` with any argument count but one answers the arity error and changes nothing. */
  lemma GetArityError(m: map<string, Entry>, parts: seq<string>, now: int)
    requires parts != [] && Lookup(parts[0]) == Some(GetCmd) && |parts| != 2
    ensures Dispatch(m, parts, now) == (ErrGetArity, m)
  {
  }

  /** On a store of words, `GET` answers the arity error only for a wrong argument count. */
  lemma GetArity(m: map<string, Entry>, c: string, args: seq<string>, now: int)
    requires WellFormed(m) && Lookup(c) == Some(GetCmd)
    ensures Dispatch(m, [c] + args, now).0 == ErrGetArity <==> |args| != 1
  {
    assert ([c] + args)[1..] == args;
    assert ErrGetArity[3] == ' ';
    if |args| == 1 && args[0] in m {
      assert IsWord(m[args[0]].value);
    }
  }

  /** Every error answer leaves the store exactly as it was; only `OK` and `(nil)` come with a change. */
  lemma ErrorsLeaveStoreUnchanged(m: map<string, Entry>, parts: seq<string>, now: int)
    ensures Dispatch(m, parts, now).0 in Errors ==> Dispatch(m, parts, now).1 == m
    ensures Dispatch(m, parts, now).1 != m ==> Dispatch(m, parts, now).0 in {Ok, Nil}
  {
    if parts != [] && Lookup(parts[0]) == Some(GetCmd) && |parts[1..]| == 1 {
      var k := parts[1..][0];
      if k in m && !Expired(m[k], now) {
        assert Dispatch(m, parts, now).1 == m;
      }
    }
  }

  /** A command made of words stores only words. */
  lemma DispatchKeepsWellFormed(m: map<string, Entry>, parts: seq<string>, now: int)
    requires WellFormed(m) && AllWords(parts)
    ensures WellFormed(Dispatch(m, parts, now).1)
  {
    if |parts| >= 3 {
      assert IsWord(parts[1..][0]) && IsWord(parts[1..][1]);
    }
  }

  /** Whatever line is processed, the store keeps only whitespace-free, non-empty keys and values. */
  lemma ApplyKeepsWellFormed(m: map<string, Entry>, line: string, now: int)
    requires WellFormed(m)
    ensures WellFormed(Apply(m, line, now).1)
  {
    ApplyIsDispatch(m, line, now);
    DispatchKeepsWellFormed(m, Split(line), now);
  }

  // ------------------------------------------------------------ SET / GET sequences

  /** `GET` of a key that is not in the store answers `(nil)` and changes nothing. */
  lemma GetAbsent(m: map<string, Entry>, c: string, k: string, now: int)
    requires Lookup(c) == Some(GetCmd) && k !in m
    ensures Dispatch(m, [c, k], now) == (Nil, m)
  {
    assert [c, k][1..] == [k];
  }

  /** A `GET` never answers with an expired value: any answer other than `(nil)` is the live value stored under the key. */
  lemma GetNeverStale(m: map<string, Entry>, c: string, k: string, now: int)
    requires Lookup(c) == Some(GetCmd)
    ensures Dispatch(m, [c, k], now).0 != Nil ==>
      k in m && !Expired(m[k], now) && Dispatch(m, [c, k], now).0 == m[k].value
  {
    assert [c, k][1..] == [k];
  }

  /** `SET k v` then `GET k`, at any later instant, answers `v`; the read changes nothing. */
  lemma SetThenGet(m: map<string, Entry>, c1: string, c2: string, k: string, v: string, t0: int, t1: int)
    requires Lookup(c1) == Some(SetCmd) && Lookup(c2) == Some(GetCmd)
    ensures var (r1, m1) := Dispatch(m, [c1, k, v], t0);
            var (r2, m2) := Dispatch(m1, [c2, k], t1);
            && r1 == Ok && m1 == m[k := Entry(v, None)]
            && r2 == v && m2 == m1
  {
    SetTwoArgs(m, c1, k, v, t0);
    assert [c2, k][1..] == [k];
  }

  /** A second `SET` replaces the first whole: `SET k v1; SET k v2; GET k` answers `v2`. */
  lemma SetReplaces(m: map<string, Entry>, c1: string, c2: string, c3: string, k: string, v1: string, v2: string,
                    t0: int, t1: int, t2: int)
    requires Lookup(c1) == Some(SetCmd) && Lookup(c2) == Some(SetCmd) && Lookup(c3) == Some(GetCmd)
    ensures var (r1, m1) := Dispatch(m, [c1, k, v1], t0);
            var (r2, m2) := Dispatch(m1, [c2, k, v2], t1);
            var (r3, m3) := Dispatch(m2, [c3, k], t2);
            && r1 == Ok && r2 == Ok && r3 == v2
            && m2 == m[k := Entry(v2, None)] && m3 == m2
  {
    SetThenGet(m, c1, c3, k, v1, t0, t2);
    var m1 := Dispatch(m, [c1, k, v1], t0).1;
    SetThenGet(m1, c2, c3, k, v2, t1, t2);
    assert m1[k := Entry(v2, None)] == m[k := Entry(v2, None)];
  }

  /**
   * `SET k v EX n` accepted at `t0` expires at `t0 + n`: a `GET k` at `now`
   * answers `v` and changes nothing while `now <= t0 + n`, and afterwards
   * answers `(nil)` and removes exactly `k`.
   */
  lemma SetExThenGet(m: map<string, Entry>, c1: string, c2: string, k: string, v: string, x: string, t: string,
                     n: int, t0: int, now: int)
    requires Lookup(c1) == Some(SetCmd) && Upper(x) == "EX" && ParseInt(t) == Some(n) && n >= 0
    requires Lookup(c2) == Some(GetCmd)
    ensures var (r1, m1) := Dispatch(m, [c1, k, v, x, t], t0);
            var (r2, m2) := Dispatch(m1, [c2, k], now);
            && r1 == Ok && m1 == m[k := Entry(v, Some(t0 + n))]
            && (now <= t0 + n ==> r2 == v && m2 == m1)
            && (now > t0 + n ==> r2 == Nil && m2 == m - {k})
  {
    SetWithExpiry(m, c1, k, v, x, t, t0);
    assert [c2, k][1..] == [k];
    var m1 := m[k := Entry(v, Some(t0 + n))];
    assert m1 - {k} == m - {k};
  }

  // ------------------------------------------------------------ reaper

  /** An accepted `SET` writes an entry that is live at the instant it is written, so a sweep then commutes with it. */
  lemma SetCommutesWithSweep(m: map<string, Entry>, args: seq<string>, now: int)
    ensures ApplySet(Swept(m, now), args, now).0 == ApplySet(m, args, now).0
    ensures ApplySet(Swept(m, now), args, now).1 == Swept(ApplySet(m, args, now).1, now)
  {
    var (r, m') := ApplySet(m, args, now);
    if r == Ok {
      var e := m'[args[0]];
      assert !Expired(e, now);
      assert Swept(m, now)[args[0] := e] == Swept(m', now);
    }
  }

  /**
   * The reaper is invisible to clients: a sweep at `now` just before a
   * command does not change its answer, and the store it leaves is the
   * command's store swept at `now`.
   */
  lemma SweepInvisible(m: map<string, Entry>, parts: seq<string>, now: int)
    ensures Dispatch(Swept(m, now), parts, now).0 == Dispatch(m, parts, now).0
    ensures Dispatch(Swept(m, now), parts, now).1 == Swept(Dispatch(m, parts, now).1, now)
  {
    if parts != [] && Lookup(parts[0]).Some? {
      var args := parts[1..];
      if Lookup(parts[0]) == Some(GetCmd) {
        if |args| == 1 {
          SweepCommutesWithRead(m, args[0], now);
        }
      } else {
        SetCommutesWithSweep(m, args, now);
      }
    }
  }

  // ------------------------------------------------------------ scenarios

  /** A line written as words and whitespace separators is dispatched on exactly those words. */
  lemma ApplyInterleave(m: map<string, Entry>, ws: seq<string>, gaps: seq<string>, now: int)
    requires AllWords(ws) && |gaps| == |ws| + 1 && Separators(gaps)
    ensures Apply(m, Interleave(ws, gaps), now) == Dispatch(m, ws, now)
  {
    SplitInterleave(ws, gaps);
    ApplyIsDispatch(m, Interleave(ws, gaps), now);
  }

  /**
   * `SET   k   v`, with three spaces between the words, overwrites `k` like
   * `SET k v`: runs of whitespace are one separator.
   */
  lemma ExtraSpaces(m: map<string, Entry>, line: string, c: string, k: string, v: string, now: int)
    requires IsWord(c) && IsWord(k) && IsWord(v) && Lookup(c) == Some(SetCmd)
    requires line == Interleave([c, k, v], ["", "   ", "   ", ""])
    ensures Apply(m, line, now) == (Ok, m[k := Entry(v, None)])
  {
    SplitInterleave([c, k, v], ["", "   ", "   ", ""]);
    ApplyIsDispatch(m, line, now);
    SetTwoArgs(m, c, k, v, now);
  }

  /** The single-spaced `SET a b EX <t>` line, built from its words and gaps. */
  lemma SetExSpelling(t: string)
    ensures Interleave(["SET", "a", "b", "EX", t], ["", " ", " ", " ", " ", ""]) == "SET a b EX " + t
  {
    var ws := ["SET", "a", "b", "EX", t];
    var gaps := ["", " ", " ", " ", " ", ""];
    assert Interleave(ws[4..], gaps[4..]) == " " + t;
    assert Interleave(ws[3..], gaps[3..]) == " EX " + t;
    assert Interleave(ws[2..], gaps[2..]) == " b EX " + t;
    assert Interleave(ws[1..], gaps[1..]) == " a b EX " + t;
  }

  /** The words and single-space gaps of `SET a b EX <t>` are what `split()` separates. */
  lemma SetExPieces(t: string)
    requires IsWord(t)
    ensures AllWords(["SET", "a", "b", "EX", t])
    ensures Separators(["", " ", " ", " ", " ", ""])
  {
    assert IsSpace(' ');
    assert IsWord("SET") && IsWord("a") && IsWord("b") && IsWord("EX");
  }

  /** `SET a b EX <t>`, single-spaced, answers the expiry error when `t` is no integer or a negative one. */
  lemma BadExpireLine(m: map<string, Entry>, t: string, now: int)
    requires IsWord(t) && (ParseInt(t).None? || ParseInt(t).value < 0)
    ensures Apply(m, "SET a b EX " + t, now) == (ErrExpire, m)
  {
    SetExSpelling(t);
    SetExPieces(t);
    ApplyInterleave(m, ["SET", "a", "b", "EX", t], ["", " ", " ", " ", " ", ""], now);
    LookupSet("SET");
    ExKeyword("EX");
    SetWithExpiry(m, "SET", "a", "b", "EX", t, now);
  }

  /** The two expiry tokens of the test suite: `-5` is an integer but negative, `notint` is no integer. */
  lemma BadExpireTokens()
    ensures ParseInt("-5") == Some(-5)
    ensures ParseInt("notint") == None
  {
    assert "-5"[1..] == "5";
  }

  /** The two bad expiry lines of the test suite, as the shared prefix and the expiry token. */
  lemma BadExpireSpelling()
    ensures "SET a b EX " + "-5" == "SET a b EX -5"
    ensures "SET a b EX " + "notint" == "SET a b EX notint"
  {
  }

  /** The two bad expiry lines of the test suite answer the expiry error and leave the store as it was. */
  lemma BadExpireLines(m: map<string, Entry>, now: int)
    ensures Apply(m, "SET a b EX -5", now) == (ErrExpire, m)
    ensures Apply(m, "SET a b EX notint", now) == (ErrExpire, m)
  {
    BadExpireTokens();
    assert IsWord("-5") && IsWord("notint");
    BadExpireLine(m, "-5", now);
    BadExpireLine(m, "notint", now);
    BadExpireSpelling();
  }
}
