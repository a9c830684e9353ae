/** The batch of policy commands that kernel/selinux/rules.c reads from user space, in the
    encoding that uapi/supercall.h documents, and its all-or-nothing application. */
module SepolicyBatch {
  import opened Bytes

  const EINVAL: int := -22
  const E2BIG: int := -7
  const ENOMEM: int := -12
  const EFAULT: int := -14
  const MAX_BATCH: nat := 8 * 1024 * 1024
  const MAX_ARGS: nat := 5

  /** A length of zero stands for ALL, so a name is never empty. */
  datatype Arg = All | Name(s: ByteSeq)

  datatype Command = Command(cmd: nat, subcmd: nat, args: seq<Arg>)

  /** sepol_expected_argc */
  function ExpectedArgc(cmd: nat): (r: Option<nat>)
    ensures r.Some? ==> 1 <= r.value <= MAX_ARGS
  {
    match cmd
    case 1 => Some(4)  // NORMAL_PERM
    case 2 => Some(5)  // XPERM
    case 3 => Some(1)  // TYPE_STATE
    case 4 => Some(2)  // TYPE
    case 5 => Some(2)  // TYPE_ATTR
    case 6 => Some(1)  // ATTR
    case 7 => Some(5)  // TYPE_TRANSITION
    case 8 => Some(4)  // TYPE_CHANGE
    case 9 => Some(3)  // GENFSCON
    case _ => None
  }

  // ---- the documented encoding ----------------------------------------------------------

  ghost predicate ValidArg(a: Arg) {
    a.Name? ==> 0 < |a.s| < 0x1_0000_0000 && 0 !in a.s
  }

  /** How many arguments the documentation gives each command: rule 4, extended rule 5, type state 1,
      type 2, type attribute 2, attribute 1, transition 5, change 4, genfscon 3. */
  ghost predicate Documented(cmd: nat, n: nat) {
    (cmd, n) in {(1, 4), (2, 5), (3, 1), (4, 2), (5, 2), (6, 1), (7, 5), (8, 4), (9, 3)}
  }

  ghost predicate ValidCommand(c: Command) {
    && c.subcmd < 0x1_0000_0000 && Documented(c.cmd, |c.args|)
    && forall i :: 0 <= i < |c.args| ==> ValidArg(c.args[i])
  }

  function EncodeArg(a: Arg): ByteSeq {
    match a
    case All => LeBytes(0, 4) + [0]
    case Name(s) => LeBytes(|s|, 4) + s + [0]
  }

  function EncodeArgs(args: seq<Arg>): ByteSeq {
    if args == [] then [] else EncodeArg(args[0]) + EncodeArgs(args[1..])
  }

  function Encode(c: Command): ByteSeq {
    LeBytes(c.cmd, 4) + LeBytes(c.subcmd, 4) + EncodeArgs(c.args)
  }

  function EncodeAll(cs: seq<Command>): ByteSeq {
    if cs == [] then [] else Encode(cs[0]) + EncodeAll(cs[1..])
  }

  // ---- what the cursor functions read, as functions of the bytes that remain -------------

  /** sepol_read_string */
  function ReadArg(b: ByteSeq): (r: Option<(Arg, ByteSeq)>)
    ensures r.Some? ==> |r.value.1| < |b|
  {
    if |b| < 4 then None
    else
      var len, rest := LeValue(b[..4]), b[4..];
      if len >= |rest| then None
      else if 0 in rest[..len] || rest[len] != 0 then None
      else Some((if len == 0 then All else Name(rest[..len]), rest[len + 1..]))
  }

  function ReadArgs(b: ByteSeq, n: nat): (r: Option<(seq<Arg>, ByteSeq)>)
    ensures r.Some? ==> |r.value.0| == n && |r.value.1| <= |b|
    decreases n
  {
    if n == 0 then Some(([], b))
    else match ReadArg(b)
         case None => None
         case Some((a, rest)) =>
           match ReadArgs(rest, n - 1)
           case None => None
           case Some((args, rest')) => Some(([a] + args, rest'))
  }

  function ReadCommand(b: ByteSeq): (r: Option<(Command, ByteSeq)>)
    ensures r.Some? ==> |r.value.1| < |b|
  {
    if |b| < 8 then None
    else
      var cmd, subcmd := LeValue(b[..4]), LeValue(b[4..8]);
      match ExpectedArgc(cmd)
      case None => None
      case Some(n) =>
        match ReadArgs(b[8..], n)
        case None => None
        case Some((args, rest)) => Some((Command(cmd, subcmd, args), rest))
  }

  function DecodeAll(b: ByteSeq): Option<seq<Command>>
    decreases |b|
  {
    if b == [] then Some([])
    else match ReadCommand(b)
         case None => None
         case Some((c, rest)) =>
           match DecodeAll(rest)
           case None => None
           case Some(cs) => Some([c] + cs)
  }

  // ---- the encoding and the reader agree, both ways -------------------------------------

  lemma {:induction false} ReadArgEncoded(a: Arg, rest: ByteSeq)
    requires ValidArg(a)
    ensures ReadArg(EncodeArg(a) + rest) == Some((a, rest))
  {
    var s: ByteSeq := match a case All => [] case Name(s) => s;
    RangeValues();
    LeRoundTrip(|s|, 4);
    var b, tail := EncodeArg(a) + rest, s + [0] + rest;
    assert b == LeBytes(|s|, 4) + tail;
    assert b[..4] == LeBytes(|s|, 4) && b[4..] == tail;
    assert tail[..|s|] == s && tail[|s| + 1..] == rest;
  }

  lemma {:induction false} ReadArgCanonical(b: ByteSeq)
    requires ReadArg(b).Some?
    ensures var (a, rest) := ReadArg(b).value; ValidArg(a) && b == EncodeArg(a) + rest
  {
    var (a, rest) := ReadArg(b).value;
    var len, tail := LeValue(b[..4]), b[4..];
    RangeValues();
    LeValueBound(b[..4]);
    LeCanonical(b[..4]);
    assert b == b[..4] + tail;
    assert tail == tail[..len] + [0] + rest;
    if len == 0 {
      assert tail[..0] == [];
    }
  }

  lemma {:induction false} ReadArgsEncoded(args: seq<Arg>, rest: ByteSeq)
    requires forall i :: 0 <= i < |args| ==> ValidArg(args[i])
    ensures ReadArgs(EncodeArgs(args) + rest, |args|) == Some((args, rest))
    decreases |args|
  {
    hide ReadArg, EncodeArg, ValidArg;
    if args == [] {
      assert EncodeArgs(args) + rest == rest;
    } else {
      var tail := EncodeArgs(args[1..]) + rest;
      assert EncodeArgs(args) + rest == EncodeArg(args[0]) + tail;
      ReadArgEncoded(args[0], tail);
      ReadArgsEncoded(args[1..], rest);
      assert args == [args[0]] + args[1..];
    }
  }

  lemma {:induction false} ReadArgsCanonical(b: ByteSeq, n: nat)
    requires ReadArgs(b, n).Some?
    ensures var (args, rest) := ReadArgs(b, n).value;
            b == EncodeArgs(args) + rest && forall i :: 0 <= i < |args| ==> ValidArg(args[i])
    decreases n
  {
    hide ReadArg, EncodeArg, ValidArg;
    if n == 0 {
      assert b == EncodeArgs([]) + b;
    } else {
      ReadArgCanonical(b);
      var (a, tail) := ReadArg(b).value;
      ReadArgsCanonical(tail, n - 1);
      var (args, rest) := ReadArgs(tail, n - 1).value;
      assert ([a] + args)[1..] == args;
      assert EncodeArgs([a] + args) + rest == EncodeArg(a) + (EncodeArgs(args) + rest);
    }
  }

  lemma {:induction false} ReadCommandEncoded(c: Command, rest: ByteSeq)
    requires ValidCommand(c)
    ensures ReadCommand(Encode(c) + rest) == Some((c, rest))
  {
    hide ReadArgs, EncodeArgs, LeBytes, LeValue, ValidArg;
    RangeValues();
    LeRoundTrip(c.cmd, 4);
    LeRoundTrip(c.subcmd, 4);
    ReadArgsEncoded(c.args, rest);
    var b := Encode(c) + rest;
    assert b == LeBytes(c.cmd, 4) + (LeBytes(c.subcmd, 4) + (EncodeArgs(c.args) + rest));
    assert b[..4] == LeBytes(c.cmd, 4) && b[4..8] == LeBytes(c.subcmd, 4) && b[8..] == EncodeArgs(c.args) + rest;
  }

  lemma {:induction false} ReadCommandCanonical(b: ByteSeq)
    requires ReadCommand(b).Some?
    ensures var (c, rest) := ReadCommand(b).value; ValidCommand(c) && b == Encode(c) + rest
  {
    hide ReadArgs, EncodeArgs, LeBytes, LeValue, ValidArg;
    var (c, rest) := ReadCommand(b).value;
    RangeValues();
    LeValueBound(b[..4]);
    LeValueBound(b[4..8]);
    LeCanonical(b[..4]);
    LeCanonical(b[4..8]);
    ReadArgsCanonical(b[8..], |c.args|);
    assert b == b[..4] + b[4..8] + b[8..];
  }

  /** The batch reader accepts exactly the encodings of valid command lists, and gives the list
      back with nothing left over. */
  lemma {:induction false} DecodesExactlyEncodings(b: ByteSeq, cs: seq<Command>)
    ensures DecodeAll(b) == Some(cs) <==> b == EncodeAll(cs) && forall i :: 0 <= i < |cs| ==> ValidCommand(cs[i])
    decreases |b|, |cs|
  {
    if b == EncodeAll(cs) && forall i :: 0 <= i < |cs| ==> ValidCommand(cs[i]) {
      DecodeEncoded(cs);
    }
    if DecodeAll(b) == Some(cs) {
      DecodeCanonical(b);
    }
  }

  lemma {:induction false} DecodeEncoded(cs: seq<Command>)
    requires forall i :: 0 <= i < |cs| ==> ValidCommand(cs[i])
    ensures DecodeAll(EncodeAll(cs)) == Some(cs)
    decreases |cs|
  {
    hide ReadCommand, Encode, ValidCommand;
    if cs != [] {
      ReadCommandEncoded(cs[0], EncodeAll(cs[1..]));
      DecodeEncoded(cs[1..]);
      assert cs == [cs[0]] + cs[1..];
    }
  }

  lemma {:induction false} DecodeCanonical(b: ByteSeq)
    requires DecodeAll(b).Some?
    ensures var cs := DecodeAll(b).value; b == EncodeAll(cs) && forall i :: 0 <= i < |cs| ==> ValidCommand(cs[i])
    decreases |b|
  {
    hide ReadCommand, Encode, ValidCommand;
    if b != [] {
      ReadCommandCanonical(b);
      var (c, rest) := ReadCommand(b).value;
      DecodeCanonical(rest);
      var cs := DecodeAll(rest).value;
      assert ([c] + cs)[1..] == cs;
    }
  }

  // ---- applying a batch -------------------------------------------------------------------

  /** The commands in order over a policy, with the number that succeeded; `apply` stands for
      apply_one_sepolicy_cmd. */
  ghost function Fold<P>(apply: (P, Command) -> (P, bool), p: P, cs: seq<Command>): (P, nat) {
    if cs == [] then (p, 0)
    else
      var (q, n) := Fold(apply, p, cs[..|cs| - 1]);
      var (r, ok) := apply(q, cs[|cs| - 1]);
      (r, if ok then n + 1 else n)
  }

  /** `done` followed by what is still to be decoded. */
  ghost function Continue(done: seq<Command>, rest: Option<seq<Command>>): Option<seq<Command>> {
    match rest case None => None case Some(cs) => Some(done + cs)
  }

  class Cursor {
    const payload: ByteSeq
    var pos: nat

    ghost predicate Valid()
      reads this
    {
      pos <= |payload|
    }

    ghost function Rest(): ByteSeq
      requires Valid()
      reads this
    {
      payload[pos..]
    }

    constructor (payload: ByteSeq)
      ensures Valid() && Rest() == payload && this.payload == payload && pos == 0
    {
      this.payload, pos := payload, 0;
    }

    method ReadU32() returns (v: nat)
      requires Valid() && |payload| - pos >= 4
      modifies this
      ensures Valid() && v == LeValue(old(Rest())[..4]) && Rest() == old(Rest())[4..]
    {
      v := LeValue(payload[pos..pos + 4]);
      assert payload[pos..pos + 4] == payload[pos..][..4];
      pos := pos + 4;
    }

    method ReadString() returns (r: Option<Arg>)
      requires Valid()
      modifies this
      ensures Valid()
      ensures match ReadArg(old(Rest()))
              case None => r.None?
              case Some((a, rest)) => r == Some(a) && Rest() == rest
    {
      ghost var b := Rest();
      if |payload| - pos < 4 {
        return None;
      }
      var len := ReadU32();
      if len >= |payload| - pos {
        return None;
      }
      var str := payload[pos..pos + len];
      assert str == b[4..][..len] && payload[pos + len] == b[4..][len];
      if 0 in str || payload[pos + len] != 0 {
        return None;
      }
      pos := pos + len + 1;
      assert Rest() == b[4..][len + 1..];
      r := if len == 0 then Some(All) else Some(Name(str));
    }

    /** The argument loop of handle_sepolicy. */
    method ReadArgList(n: nat) returns (r: Option<seq<Arg>>)
      requires Valid()
      modifies this
      ensures Valid()
      ensures match ReadArgs(old(Rest()), n)
              case None => r.None?
              case Some((args, rest)) => r == Some(args) && Rest() == rest
    {
      hide ReadArg;
      var args: seq<Arg> := [];
      assert forall more: seq<Arg> :: [] + more == more;
      while |args| < n
        invariant Valid() && |args| <= n
        invariant ReadArgs(old(Rest()), n) == WithPrefix(args, ReadArgs(Rest(), n - |args|))
        decreases n - |args|
      {
        ghost var b := Rest();
        var a := ReadString();
        if a.None? {
          return None;
        }
        assert forall more: seq<Arg> :: (args + [a.value]) + more == args + ([a.value] + more);
        args := args + [a.value];
      }
      assert args + [] == args;
      r := Some(args);
    }

    /** The header of a command, then its arguments. */
    method ReadOne() returns (r: Option<Command>)
      requires Valid()
      modifies this
      ensures Valid()
      ensures match ReadCommand(old(Rest()))
              case None => r.None?
              case Some((c, rest)) => r == Some(c) && Rest() == rest
    {
      hide ReadArgs, LeValue;
      ghost var b := Rest();
      if |payload| - pos < 8 {
        return None;
      }
      var cmd := ReadU32();
      var subcmd := ReadU32();
      assert b[4..][..4] == b[4..8] && b[4..][4..] == b[8..];
      var argc := ExpectedArgc(cmd);
      if argc.None? {
        return None;
      }
      var args := ReadArgList(argc.value);
      if args.None? {
        return None;
      }
      r := Some(Command(cmd, subcmd, args.value));
    }
  }

  ghost function WithPrefix(args: seq<Arg>, r: Option<(seq<Arg>, ByteSeq)>): Option<(seq<Arg>, ByteSeq)> {
    match r case None => None case Some((more, rest)) => Some((args + more, rest))
  }

  lemma {:induction false} DecodeStep(done: seq<Command>, b: ByteSeq)
    requires b != []
    ensures match ReadCommand(b)
            case None => DecodeAll(b).None?
            case Some((c, rest)) => Continue(done, DecodeAll(b)) == Continue(done + [c], DecodeAll(rest))
  {
    hide ReadCommand;
    if ReadCommand(b).Some? {
      var c := ReadCommand(b).value.0;
      assert forall cs: seq<Command> :: (done + [c]) + cs == done + ([c] + cs);
    }
  }

  lemma {:induction false} FoldStep<P>(apply: (P, Command) -> (P, bool), p: P, cs: seq<Command>, c: Command)
    ensures var (q, n) := Fold(apply, p, cs);
            Fold(apply, p, cs + [c]) == (apply(q, c).0, if apply(q, c).1 then n + 1 else n)
  {
    assert (cs + [c])[..|cs|] == cs;
  }

  lemma {:induction false} NothingDone(payload: ByteSeq)
    ensures Continue([], DecodeAll(payload)) == DecodeAll(payload)
  {
    hide DecodeAll;
    assert forall cs: seq<Command> :: [] + cs == cs;
  }

  lemma Undecoded(done: seq<Command>)
    ensures Continue(done, None) == None
  {
  }

  lemma {:induction false} EverythingDone(done: seq<Command>)
    ensures Continue(done, DecodeAll([])) == Some(done)
  {
    assert done + [] == done;
  }

  lemma DecodeNothing<P>(apply: (P, Command) -> (P, bool), p: P)
    ensures DecodeAll([]) == Some([]) && Fold(apply, p, []) == (p, 0)
  {
  }

  /** The loop of handle_sepolicy: each command is applied as soon as it is read, to a copy that
      is thrown away if a later one cannot be read. */
  method ApplyBatch<P>(payload: ByteSeq, p: P, apply: (P, Command) -> (P, bool)) returns (r: Option<(P, nat)>)
    ensures match DecodeAll(payload)
            case None => r.None?
            case Some(cs) => r == Some(Fold(apply, p, cs))
  {
    hide DecodeAll, Fold, ReadCommand, Continue;
    DecodeNothing(apply, p);
    var db, count := p, 0;
    var cursor := new Cursor(payload);
    ghost var done: seq<Command> := [];
    NothingDone(payload);
    while cursor.pos < |payload|
      invariant cursor.Valid() && fresh(cursor) && cursor.payload == payload
      invariant DecodeAll(payload) == Continue(done, DecodeAll(cursor.Rest()))
      invariant (db, count) == Fold(apply, p, done)
      decreases |cursor.Rest()|
    {
      DecodeStep(done, cursor.Rest());
      var c := cursor.ReadOne();
      if c.None? {
        Undecoded(done);
        return None;
      }
      FoldStep(apply, p, done, c.value);
      var (next, ok) := apply(db, c.value);
      db := next;
      count := if ok then count + 1 else count;
      done := done + [c.value];
    }
    EverythingDone(done);
    r := Some((db, count));
  }

  /** The published policy, and the supercall that replaces it. */
  class SelinuxState<P> {
    var policy: Option<P>

    /** handle_sepolicy. `memory`, `copied` and `dupErr` stand for what kvmalloc, copy_from_user
        and ksu_dup_sepolicy return. */
    method HandleSepolicy(payload: ByteSeq, apply: (P, Command) -> (P, bool), memory: bool, copied: bool, dupErr: int)
      returns (ret: int)
      requires dupErr <= 0
      modifies this
      ensures ret >= 0 <==> && 0 < |payload| <= 0x80_0000 && memory && copied && dupErr == 0
                            && old(policy).Some? && DecodeAll(payload).Some?
      ensures ret >= 0 ==> && Some(Fold(apply, old(policy).value, DecodeAll(payload).value).0) == policy
                           && ret == Fold(apply, old(policy).value, DecodeAll(payload).value).1
      ensures ret < 0 ==> policy == old(policy)
      ensures |payload| == 0 ==> ret == -22
      ensures |payload| > 0x80_0000 ==> ret == -7
      ensures 0 < |payload| <= 0x80_0000 ==>
                && (!memory ==> ret == -12)
                && (memory && !copied ==> ret == -14)
                && (memory && copied && old(policy).None? ==> ret == -22)
                && (memory && copied && old(policy).Some? && dupErr != 0 ==> ret == dupErr)
                && (memory && copied && old(policy).Some? && dupErr == 0 && DecodeAll(payload).None? ==> ret == -22)
    {
      if |payload| == 0 {
        return EINVAL;
      }
      if |payload| > MAX_BATCH {
        return E2BIG;
      }
      if !memory {
        return ENOMEM;
      }
      if !copied {
        return EFAULT;
      }
      if policy.None? {
        return EINVAL;
      }
      if dupErr != 0 {
        return dupErr;
      }
      hide DecodeAll, Fold;
      var r := ApplyBatch(payload, policy.value, apply);
      if r.None? {
        return EINVAL;
      }
      policy := Some(r.value.0);
      ret := r.value.1;
    }
  }
}
