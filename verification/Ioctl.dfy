/**
 IoctlHandler: the parameter pack of commands is folded left to right with `ret` and `handled`
 threaded through.  The reference is "run the first command with this number, else -ENOTTY".
 `S` is the owner's state and `handler` its handle_ioctl, an arbitrary function of the state, the
 command and the data.
 */
module Ioctl {
  import opened Common

  datatype Direction = NONE | READ | WRITE | READ_WRITE

  /** `size` is sizeof the command's data type. */
  datatype Command = Command(number: nat, size: nat, direction: Direction)

  predicate CopiesIn(c: Command) {
    c.direction == WRITE || c.direction == READ_WRITE
  }

  predicate CopiesOut(c: Command) {
    c.direction == READ || c.direction == READ_WRITE
  }

  /** User memory: the readable bytes, and which addresses can be written. */
  datatype User = User(bytes: map<nat, Byte>, writable: set<nat>)

  /** copy_from_user of `n` bytes. */
  function CopyIn(u: User, arg: nat, n: nat): Option<seq<Byte>> {
    if forall a: nat | arg <= a < arg + n :: a in u.bytes
    then Some(seq(n, i requires 0 <= i < n => u.bytes[arg + i]))
    else None
  }

  /** copy_to_user: stores bytes until the first address that cannot be written. */
  function CopyOut(u: User, arg: nat, data: seq<Byte>): (User, bool)
    decreases |data|
  {
    if data == [] then (u, true)
    else if arg !in u.writable then (u, false)
    else CopyOut(u.(bytes := u.bytes[arg := data[0]]), arg + 1, data[1..])
  }

  function Zeros(n: nat): seq<Byte> {
    seq(n, i => 0)
  }

  datatype Reply<S> = Reply(owner: S, ret: int, data: seq<Byte>)

  type Handler<!S> = (S, Command, seq<Byte>) -> Reply<S>

  /** The handler works on an object of the command's data type: the data keeps its size. */
  ghost predicate Typed<S(!new)>(handler: Handler<S>) {
    forall s, c, data :: |handler(s, c, data).data| == |data|
  }

  /** User memory `v` differs from `u` at most in the `n` bytes from `arg` on. */
  ghost predicate ChangedWithin(u: User, v: User, arg: nat, n: nat) {
    && v.writable == u.writable
    && (forall a: nat | a < arg || a >= arg + n ::
          (a in v.bytes <==> a in u.bytes) && (a in u.bytes ==> v.bytes[a] == u.bytes[a]))
  }

  /** One handler call and the data it was given. */
  datatype Invocation = Invocation(command: Command, input: seq<Byte>)

  /** Everything a dispatch can change. */
  datatype World<S> = World(owner: S, user: User, calls: seq<Invocation>)

  datatype State<S> = State(world: World<S>, ret: int, handled: bool)

  // ----- The fold -----

  /** process_command for one element of the pack. */
  function Process<S>(s: State<S>, handler: Handler<S>, c: Command, cmd: nat, arg: nat): State<S> {
    if s.handled || cmd != c.number then s
    else
      var copied := if CopiesIn(c) then CopyIn(s.world.user, arg, c.size) else Some(Zeros(c.size));
      if copied.None? then s.(ret := -EFAULT, handled := true)
      else
        var reply := handler(s.world.owner, c, copied.value);
        var w := s.world.(owner := reply.owner, calls := s.world.calls + [Invocation(c, copied.value)]);
        if CopiesOut(c) && reply.ret == 0 then
          var (user, ok) := CopyOut(w.user, arg, reply.data);
          State(w.(user := user), if ok then 0 else -EFAULT, true)
        else State(w, reply.ret, true)
  }

  function Fold<S>(s: State<S>, handler: Handler<S>, cs: seq<Command>, cmd: nat, arg: nat): State<S>
    decreases |cs|
  {
    if cs == [] then s else Fold(Process(s, handler, cs[0], cmd, arg), handler, cs[1..], cmd, arg)
  }

  function Handle<S>(w: World<S>, handler: Handler<S>, cs: seq<Command>, cmd: nat, arg: nat): State<S> {
    Fold(State(w, -ENOTTY, false), handler, cs, cmd, arg)
  }

  // ----- The reference -----

  /** `i` is the first position of a command with number `cmd`. */
  ghost predicate IsFirst(cs: seq<Command>, cmd: nat, i: nat) {
    i < |cs| && cs[i].number == cmd && forall j | 0 <= j < i :: cs[j].number != cmd
  }

  ghost predicate Absent(cs: seq<Command>, cmd: nat) {
    forall j | 0 <= j < |cs| :: cs[j].number != cmd
  }

  /** The effect of one command, written by cases rather than by steps. */
  ghost predicate Runs<S(!new)>(w: World<S>, handler: Handler<S>, c: Command, arg: nat, r: State<S>) {
    var input := if CopiesIn(c) then CopyIn(w.user, arg, c.size) else Some(Zeros(c.size));
    && (input.None? ==> r.ret == -EFAULT && r.world == w)
    && (input.Some? ==>
          var reply := handler(w.owner, c, input.value);
          && r.world.owner == reply.owner
          && r.world.calls == w.calls + [Invocation(c, input.value)]
          && (CopiesOut(c) && reply.ret == 0 ==>
                && r.world.user == CopyOut(w.user, arg, reply.data).0
                && (r.ret == 0 || r.ret == -EFAULT)
                && (r.ret == 0 <==> CopyOut(w.user, arg, reply.data).1))
          && (!(CopiesOut(c) && reply.ret == 0) ==> r.world.user == w.user && r.ret == reply.ret))
  }

  lemma {:induction false} HandledIsFinal<S>(s: State<S>, handler: Handler<S>, cs: seq<Command>, cmd: nat, arg: nat)
    requires s.handled || Absent(cs, cmd)
    ensures Fold(s, handler, cs, cmd, arg) == s
    decreases |cs|
  {
    if cs != [] {
      HandledIsFinal(s, handler, cs[1..], cmd, arg);
    }
  }

  lemma {:induction false} FoldReachesFirst<S>(
    s: State<S>, handler: Handler<S>, cs: seq<Command>, cmd: nat, arg: nat, i: nat)
    requires !s.handled && IsFirst(cs, cmd, i)
    ensures Fold(s, handler, cs, cmd, arg) == Process(s, handler, cs[i], cmd, arg)
    decreases |cs|
  {
    if i == 0 {
      HandledIsFinal(Process(s, handler, cs[0], cmd, arg), handler, cs[1..], cmd, arg);
    } else {
      FoldReachesFirst(s, handler, cs[1..], cmd, arg, i - 1);
    }
  }

  /** For every command list, duplicates included: the first matching command runs, else -ENOTTY. */
  lemma DispatchIsFirstMatch<S(!new)>(w: World<S>, handler: Handler<S>, cs: seq<Command>, cmd: nat, arg: nat)
    ensures Absent(cs, cmd) ==> Handle(w, handler, cs, cmd, arg) == State(w, -ENOTTY, false)
    ensures forall i: nat | IsFirst(cs, cmd, i) ::
              Runs(w, handler, cs[i], arg, Handle(w, handler, cs, cmd, arg)) && Handle(w, handler, cs, cmd, arg).handled
  {
    var start := State(w, -ENOTTY, false);
    if Absent(cs, cmd) {
      HandledIsFinal(start, handler, cs, cmd, arg);
    }
    forall i: nat | IsFirst(cs, cmd, i)
      ensures Runs(w, handler, cs[i], arg, Handle(w, handler, cs, cmd, arg)) && Handle(w, handler, cs, cmd, arg).handled
    {
      FoldReachesFirst(start, handler, cs, cmd, arg, i);
    }
  }

  lemma {:induction false} FirstExists(cs: seq<Command>, cmd: nat)
    ensures Absent(cs, cmd) || exists i: nat :: IsFirst(cs, cmd, i)
    decreases |cs|
  {
    if cs != [] && cs[0].number != cmd {
      FirstExists(cs[1..], cmd);
      if i: nat :| IsFirst(cs[1..], cmd, i) {
        assert IsFirst(cs, cmd, i + 1);
      }
    } else if cs != [] {
      assert IsFirst(cs, cmd, 0);
    }
  }

  /** At most one handler call; none after a failed copy in; user memory changes only for READ or
      READ_WRITE with handler result 0, and only in the bytes of the argument. */
  lemma DispatchEffects<S(!new)>(w: World<S>, handler: Handler<S>, cs: seq<Command>, cmd: nat, arg: nat)
    requires Typed(handler)
    ensures var r := Handle(w, handler, cs, cmd, arg);
            && (r.world.calls == w.calls ||
                exists v :: r.world.calls == w.calls + [v] && v.command in cs && v.command.number == cmd)
            && (r.world.calls == w.calls ==> r.world == w && (r.ret == -ENOTTY || r.ret == -EFAULT))
            && (r.world.user != w.user ==>
                  exists v :: r.world.calls == w.calls + [v] && CopiesOut(v.command)
                              && handler(w.owner, v.command, v.input).ret == 0
                              && ChangedWithin(w.user, r.world.user, arg, v.command.size))
  {
    DispatchIsFirstMatch(w, handler, cs, cmd, arg);
    FirstExists(cs, cmd);
    var r := Handle(w, handler, cs, cmd, arg);
    if !Absent(cs, cmd) {
      var i: nat :| IsFirst(cs, cmd, i);
      var c := cs[i];
      var input := if CopiesIn(c) then CopyIn(w.user, arg, c.size) else Some(Zeros(c.size));
      if input.Some? {
        var v := Invocation(c, input.value);
        assert r.world.calls == w.calls + [v] && v.command in cs;
        assert |r.world.calls| == |w.calls| + 1;
        CopyOutEffect(w.user, arg, handler(w.owner, c, input.value).data);
      }
    }
  }

  /** `after` is `before` and one call of `c`, whose input is `size` bytes long. */
  ghost predicate OneCall(before: seq<Invocation>, after: seq<Invocation>, c: Command) {
    && |after| == |before| + 1 && after[..|before|] == before
    && after[|before|].command == c && |after[|before|].input| == c.size
  }

  /** What the handler is given, direction by direction: the user's bytes for WRITE and READ_WRITE, or no
      call and -EFAULT if they cannot be read; zeros for NONE and READ. */
  lemma InputByDirection<S(!new)>(w: World<S>, handler: Handler<S>, cs: seq<Command>, cmd: nat, arg: nat, i: nat)
    requires IsFirst(cs, cmd, i)
    ensures var c, r := cs[i], Handle(w, handler, cs, cmd, arg);
            && (c.direction == NONE || c.direction == READ ==>
                  && OneCall(w.calls, r.world.calls, c)
                  && forall k | 0 <= k < c.size :: r.world.calls[|w.calls|].input[k] == 0)
            && (c.direction == WRITE || c.direction == READ_WRITE ==>
                  if forall a: nat | arg <= a < arg + c.size :: a in w.user.bytes then
                    && OneCall(w.calls, r.world.calls, c)
                    && forall k | 0 <= k < c.size :: r.world.calls[|w.calls|].input[k] == w.user.bytes[arg + k]
                  else r.world == w && r.ret == -EFAULT)
  {
    DispatchIsFirstMatch(w, handler, cs, cmd, arg);
  }

  /** What comes back after a call, direction by direction: nothing for NONE and WRITE; for READ and
      READ_WRITE the handler's data if it answers 0, and -EFAULT if that cannot all be written. */
  lemma OutputByDirection<S(!new)>(w: World<S>, handler: Handler<S>, cs: seq<Command>, cmd: nat, arg: nat, i: nat)
    requires Typed(handler) && IsFirst(cs, cmd, i)
    requires OneCall(w.calls, Handle(w, handler, cs, cmd, arg).world.calls, cs[i])
    ensures var c, r := cs[i], Handle(w, handler, cs, cmd, arg);
            var reply := handler(w.owner, c, r.world.calls[|w.calls|].input);
            && r.world.owner == reply.owner
            && (c.direction == NONE || c.direction == WRITE || reply.ret != 0 ==>
                  r.world.user == w.user && r.ret == reply.ret)
            && ((c.direction == READ || c.direction == READ_WRITE) && reply.ret == 0 ==>
                  && ChangedWithin(w.user, r.world.user, arg, c.size)
                  && if forall a: nat | arg <= a < arg + c.size :: a in w.user.writable then
                       && r.ret == 0
                       && (forall k | 0 <= k < c.size ::
                             arg + k in r.world.user.bytes && r.world.user.bytes[arg + k] == reply.data[k])
                     else r.ret == -EFAULT)
  {
    DispatchIsFirstMatch(w, handler, cs, cmd, arg);
    var c := cs[i];
    var input := if CopiesIn(c) then CopyIn(w.user, arg, c.size) else Some(Zeros(c.size));
    var r := Handle(w, handler, cs, cmd, arg);
    if input.Some? {
      assert r.world.calls[|w.calls|] == Invocation(c, input.value);
      CopyOutEffect(w.user, arg, handler(w.owner, c, input.value).data);
      WholeRange(r.world.user, arg, handler(w.owner, c, input.value).data);
    }
  }

  /** Bytes by address and bytes by position. */
  lemma WholeRange(u: User, arg: nat, data: seq<Byte>)
    ensures (forall a: nat | arg <= a < arg + |data| :: a in u.bytes && u.bytes[a] == data[a - arg]) ==>
              forall k | 0 <= k < |data| :: arg + k in u.bytes && u.bytes[arg + k] == data[k]
  {
  }

  /** For NONE and READ the call, its result for the owner included, does not depend on the user's memory. */
  lemma InputIndependentOfUser<S(!new)>(
    w: World<S>, u: User, handler: Handler<S>, cs: seq<Command>, cmd: nat, arg: nat, i: nat)
    requires IsFirst(cs, cmd, i) && (cs[i].direction == NONE || cs[i].direction == READ)
    ensures var r := Handle(w, handler, cs, cmd, arg);
            var r' := Handle(w.(user := u), handler, cs, cmd, arg);
            && r.world.calls == r'.world.calls == w.calls + [Invocation(cs[i], Zeros(cs[i].size))]
            && r.world.owner == r'.world.owner
  {
    DispatchIsFirstMatch(w, handler, cs, cmd, arg);
    DispatchIsFirstMatch(w.(user := u), handler, cs, cmd, arg);
  }

  // ----- Copies -----

  /** copy_to_user fails exactly when some target address cannot be written; on success the bytes are
      all there, and nothing outside the target range changes in either case. */
  lemma {:induction false} CopyOutEffect(u: User, arg: nat, data: seq<Byte>)
    ensures var v := CopyOut(u, arg, data).0;
            && ChangedWithin(u, v, arg, |data|)
            && (CopyOut(u, arg, data).1 <==> forall a: nat | arg <= a < arg + |data| :: a in u.writable)
            && (CopyOut(u, arg, data).1 ==>
                  forall a: nat | arg <= a < arg + |data| :: a in v.bytes && v.bytes[a] == data[a - arg])
    decreases |data|
  {
    if data != [] && arg in u.writable {
      CopyOutEffect(u.(bytes := u.bytes[arg := data[0]]), arg + 1, data[1..]);
    }
  }

  /** What is copied out comes back when it is copied in. */
  lemma CopyRoundTrip(u: User, arg: nat, data: seq<Byte>)
    requires CopyOut(u, arg, data).1
    ensures CopyIn(CopyOut(u, arg, data).0, arg, |data|) == Some(data)
  {
    CopyOutEffect(u, arg, data);
    var v := CopyOut(u, arg, data).0;
    var back := CopyIn(v, arg, |data|);
    forall i | 0 <= i < |data|
      ensures back.value[i] == data[i]
    {
      assert v.bytes[arg + i] == data[i];
    }
    assert back.value == data;
  }

  // ----- The handler as an object -----

  class IoctlHandler<S(!new)> {
    const commands: seq<Command>
    const handler: Handler<S>
    var owner: S
    var user: User
    var calls: seq<Invocation>

    constructor (commands: seq<Command>, handler: Handler<S>, owner: S, user: User)
      requires Typed(handler)
      ensures Valid() && this.commands == commands && this.handler == handler && Now() == World(owner, user, [])
    {
      this.commands, this.handler, this.owner, this.user, this.calls := commands, handler, owner, user, [];
    }

    ghost predicate Valid() {
      Typed(handler)
    }

    ghost function Now(): World<S>
      reads this
    {
      World(owner, user, calls)
    }

    method ProcessCommand(c: Command, cmd: nat, arg: nat, ret0: int, handled0: bool) returns (ret: int, handled: bool)
      requires Valid()
      modifies this`owner, this`user, this`calls
      ensures ChangedWithin(old(user), user, arg, c.size)
      ensures State(Now(), ret, handled) == Process(State(old(Now()), ret0, handled0), handler, c, cmd, arg)
    {
      ret, handled := ret0, handled0;
      if handled || cmd != c.number {
        return;
      }
      var data := Zeros(c.size);
      if CopiesIn(c) {
        var copied := CopyIn(user, arg, c.size);
        if copied.None? {
          return -EFAULT, true;
        }
        data := copied.value;
      }
      calls := calls + [Invocation(c, data)];
      var reply := handler(owner, c, data);
      owner, ret, data := reply.owner, reply.ret, reply.data;
      if CopiesOut(c) {
        if ret == 0 {
          var out := CopyOut(user, arg, data);
          CopyOutEffect(user, arg, data);
          user := out.0;
          if !out.1 {
            ret := -EFAULT;
          }
        }
      }
      handled := true;
    }

    method HandleIoctl(cmd: nat, arg: nat) returns (ret: int)
      requires Valid()
      modifies this`owner, this`user, this`calls
      ensures exists handled :: State(Now(), ret, handled) == Handle(old(Now()), handler, commands, cmd, arg)
    {
      var handled := false;
      ret := -ENOTTY;
      var i := 0;
      while i < |commands|
        invariant i <= |commands|
        invariant Fold(State(Now(), ret, handled), handler, commands[i..], cmd, arg) ==
                  Handle(old(Now()), handler, commands, cmd, arg)
      {
        assert commands[i..][1..] == commands[i + 1..];
        ret, handled := ProcessCommand(commands[i], cmd, arg, ret, handled);
        i := i + 1;
      }
      assert State(Now(), ret, handled) == Handle(old(Now()), handler, commands, cmd, arg);
    }
  }
}
