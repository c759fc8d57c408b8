/**
 * A request and its reply: emi_msg_send, the worker around the delivery, and the callbacks of one receiver. A slot is
 * the part of the segment that begins at its data, which this request has to itself as far as the configured limit
 * reaches.
 */
module Reply {
  import opened Common
  import opened Messages

  /** What a callback returns, and how it leaves the slot. */
  datatype Outcome = Outcome(ret: int, after: Content)

  datatype Callback = Callback(msg: bv32, func: Content -> Outcome)

  /** Callbacks do not resize the slot. */
  ghost predicate InRoom(funcs: seq<Callback>) {
    forall i, c | 0 <= i < |funcs| :: |funcs[i].func(c).after.data| == |c.data|
  }

  // ----- The receiver

  /** The slot after the callbacks for its message: all of them, or the first one only when it is to return a value. */
  function Handled(funcs: seq<Callback>, c: Content): Content
    decreases funcs
  {
    if funcs == [] then c
    else if funcs[0].msg != c.msg then Handled(funcs[1..], c)
    else
      var Outcome(ret, c') := funcs[0].func(c);
      if !Has(c.flag, EMI_MSG_FLAG_BLOCK_RETURN) then Handled(funcs[1..], c')
      else if ret != 0 then c'.(flag := ClearBit(c'.flag, EMI_MSG_CMD_SUCCEEDED))
      else c'.(flag := SetBit(c'.flag, EMI_MSG_CMD_SUCCEEDED))
  }

  /** func_sterotype, from the read of its slot to count--. */
  method FuncStereotype(shmsg: Message, funcs: seq<Callback>)
    modifies shmsg
    ensures shmsg.Value() == Handled(funcs, old(shmsg.Value()))
  {
    hide Has, SetBit, ClearBit;
    var i := 0;
    while i < |funcs|
      invariant 0 <= i <= |funcs|
      invariant Handled(funcs[i..], shmsg.Value()) == Handled(funcs, old(shmsg.Value()))
    {
      assert funcs[i..][1..] == funcs[i + 1..];
      if funcs[i].msg == shmsg.msg {
        var wantsValue := Has(shmsg.flag, EMI_MSG_FLAG_BLOCK_RETURN);
        var ret := Call(funcs[i], shmsg);
        if wantsValue {
          if ret != 0 {
            shmsg.flag := ClearBit(shmsg.flag, EMI_MSG_CMD_SUCCEEDED);
          } else {
            shmsg.flag := SetBit(shmsg.flag, EMI_MSG_CMD_SUCCEEDED);
          }
          return;
        }
      }
      i := i + 1;
    }
  }

  /** (fl->func)(shmsg). */
  method Call(callback: Callback, shmsg: Message) returns (ret: int)
    modifies shmsg
    ensures Outcome(ret, shmsg.Value()) == callback.func(old(shmsg.Value()))
  {
    var Outcome(r, c) := callback.func(shmsg.Value());
    shmsg.flag, shmsg.size, shmsg.cmd, shmsg.msg, shmsg.data := c.flag, c.size, c.cmd, c.msg, c.data;
    return r;
  }

  /** emi_msg_prepare_return_data. */
  method PrepareReturnData(m: Message, data: seq<bv8>, limit: nat) returns (ret: int)
    modifies m`size, m`data
    ensures Outcome(ret, m.Value()) == Prepared(old(m.Value()), data, limit)
    ensures limit < |data| ==> ret == -1 && m.size == old(m.size) && m.data == old(m.data)
    ensures |data| <= limit ==> ret == 0 && m.size == |data|
    ensures |data| <= limit && |data| <= old(|m.data|) ==> m.data == data + old(m.data)[|data|..]
  {
    if limit < |data| {
      return -1;
    }
    m.size := |data|;
    m.data := Overwritten(m.data, data);
    return 0;
  }

  /** A callback that returns what emi_msg_prepare_return_data returned. */
  function Prepared(c: Content, data: seq<bv8>, limit: nat): Outcome {
    if limit < |data| then Outcome(-1, c) else Outcome(0, c.(size := |data|, data := Overwritten(c.data, data)))
  }

  // ----- The worker

  /** The sender's buffer holds the data of the request. */
  predicate Sendable(c: Content) {
    Has(c.flag, EMI_MSG_TYPE_DATA) ==> c.size <= |c.data|
  }

  /** What emi_msg_send writes. */
  function Sent(c: Content): seq<Item>
    requires Sendable(c)
  {
    [Head(c.flag, c.size, c.cmd, c.msg)] + if Has(c.flag, EMI_MSG_TYPE_DATA) then [Bytes(c.data[..c.size])] else []
  }

  /** The worker reads the data of a request: not for a registration, and not limit bytes or more. */
  predicate Read(flag: bv32, size: nat, limit: nat) {
    !Has(flag, EMI_MSG_CMD_REGISTER) && Has(flag, EMI_MSG_TYPE_DATA) && size < limit
  }

  /** The slot once the request is read. */
  function Arrived(c: Content, slot: seq<bv8>, limit: nat): Content
    requires Sendable(c)
  {
    c.(data := if Read(c.flag, c.size, limit) then Overwritten(slot, c.data[..c.size]) else slot)
  }

  method ReceiveRequest(msgPos: Message, client: Socket, limit: nat, ghost request: Content) returns (ok: bool)
    requires Sendable(request) && client.items == Sent(request)
    modifies msgPos, client
    ensures ok && msgPos.Value() == Arrived(request, old(msgPos.data), limit)
  {
    hide Has;
    ok := client.ReadHead(msgPos);
    if !ok {
      return;
    }
    if !Has(msgPos.flag, EMI_MSG_CMD_REGISTER) {
      if Has(msgPos.flag, EMI_MSG_TYPE_DATA) {
        if msgPos.size < limit {
          ok := client.ReadData(msgPos);
        }
      }
    }
  }

  /** In return mode the worker sends data back. */
  predicate ReturnsData(c: Content, limit: nat) {
    Has(c.flag, EMI_MSG_CMD_SUCCEEDED) && c.size <= limit
  }

  /** The flags that a worker sends back in return mode. */
  function Settled(c: Content, limit: nat): bv32 {
    if !Has(c.flag, EMI_MSG_CMD_SUCCEEDED) then c.flag
    else if limit < c.size then ClearBit(c.flag, EMI_MSG_CMD_SUCCEEDED)
    else EMI_MSG_CMD_SUCCEEDED
  }

  /** What a worker writes back after the delivery; local is the rest of the struct on its stack in block mode. */
  function Answer(c: Content, limit: nat, local: Content): seq<Item>
    requires ReturnsData(c, limit) ==> c.size <= |c.data|
  {
    if Has(c.flag, EMI_MSG_FLAG_NONBLOCK) then []
    else if Has(c.flag, EMI_MSG_FLAG_BLOCK) then [Head(EMI_MSG_CMD_SUCCEEDED, local.size, local.cmd, local.msg)]
    else if Has(c.flag, EMI_MSG_FLAG_BLOCK_RETURN) then
      [Head(Settled(c, limit), c.size, c.cmd, c.msg)]
      + if ReturnsData(c, limit) && c.size != 0 then [Bytes(c.data[..c.size])] else []
    else []
  }

  lemma SettledBits(c: Content, limit: nat)
    ensures Has(Settled(c, limit), EMI_MSG_CMD_SUCCEEDED) <==> ReturnsData(c, limit)
  {}

  method WriteAnswer(msgPos: Message, client: Socket, limit: nat, cmd: Message)
    requires cmd != msgPos && (ReturnsData(msgPos.Value(), limit) ==> msgPos.size <= |msgPos.data|)
    modifies msgPos`flag, client, cmd`flag
    ensures client.items == old(client.items) + Answer(old(msgPos.Value()), limit, old(cmd.Value()))
  {
    SettledBits(msgPos.Value(), limit);
    hide Has, ClearBit;
    if Has(msgPos.flag, EMI_MSG_FLAG_NONBLOCK) {
      return;
    } else if Has(msgPos.flag, EMI_MSG_FLAG_BLOCK) {
      cmd.flag := EMI_MSG_CMD_SUCCEEDED;
      client.WriteHead(cmd);
    } else if Has(msgPos.flag, EMI_MSG_FLAG_BLOCK_RETURN) {
      if !Has(msgPos.flag, EMI_MSG_CMD_SUCCEEDED) {
      } else if msgPos.size > limit {
        msgPos.flag := ClearBit(msgPos.flag, EMI_MSG_CMD_SUCCEEDED);
      } else {
        msgPos.flag := EMI_MSG_CMD_SUCCEEDED;
      }
      client.WriteHead(msgPos);
      if Has(msgPos.flag, EMI_MSG_CMD_SUCCEEDED) && msgPos.size != 0 {
        client.WriteData(msgPos);
      }
    }
  }

  lemma {:induction false} HandledInRoom(funcs: seq<Callback>, c: Content)
    requires InRoom(funcs)
    ensures |Handled(funcs, c).data| == |c.data|
    decreases funcs
  {
    hide Has, SetBit, ClearBit;
    if funcs != [] {
      HandledInRoom(funcs[1..], c);
      HandledInRoom(funcs[1..], funcs[0].func(c).after);
    }
  }

  /** All that the sender can read from a worker with a slot; funcs are the callbacks of the one live receiver. */
  ghost function Answers(c: Content, slot: seq<bv8>, limit: nat, funcs: seq<Callback>, local: Content): seq<Item>
    requires Sendable(c) && limit <= |slot| && InRoom(funcs)
  {
    var arrived := Arrived(c, slot, limit);
    HandledInRoom(funcs, arrived);
    if Has(c.flag, EMI_MSG_CMD_REGISTER) then [Head(EMI_MSG_CMD_SUCCEEDED, c.size, c.cmd, c.msg)]
    else Answer(Handled(funcs, arrived), limit, local)
  }

  /** emi_recieve_operation once it has a slot; the table and the signals are the subject of module Delivery. */
  method Serve(msgPos: Message, client: Socket, back: Socket, limit: nat, funcs: seq<Callback>, cmd: Message,
               ghost request: Content)
    requires Sendable(request) && client.items == Sent(request) && limit <= |msgPos.data| && InRoom(funcs)
    requires cmd != msgPos && client != back
    modifies msgPos, client, back, cmd
    ensures back.items ==
              old(back.items) + Answers(request, old(msgPos.data), limit, funcs, old(cmd.Value()))
  {
    hide Has, SetBit, ClearBit, Handled, Answer;
    var ok := ReceiveRequest(msgPos, client, limit, request);
    if Has(msgPos.flag, EMI_MSG_CMD_REGISTER) {
      msgPos.flag := EMI_MSG_CMD_SUCCEEDED;
      back.WriteHead(msgPos);
    } else {
      HandledInRoom(funcs, msgPos.Value());
      FuncStereotype(msgPos, funcs);
      WriteAnswer(msgPos, back, limit, cmd);
    }
  }

  // ----- The sender

  /** A read of size bytes gets all of them. */
  predicate Full(items: seq<Item>, size: nat) { items != [] && items[0].Bytes? && |items[0].bytes| == size }

  /** What the sender makes of the answer. */
  function Received(c: Content, items: seq<Item>): (int, Content) {
    var head := items != [] && items[0].Head?;
    if Has(c.flag, EMI_MSG_FLAG_BLOCK) then
      (if head && Has(items[0].flag, EMI_MSG_CMD_SUCCEEDED) then 0 else -1, c)
    else if Has(c.flag, EMI_MSG_FLAG_BLOCK_RETURN) then
      var c' := if head then Content(items[0].flag, items[0].size, items[0].cmd, items[0].msg, c.data) else c;
      var rest := if head then items[1..] else items;
      if !Has(c'.flag, EMI_MSG_CMD_SUCCEEDED) then (-1, c')
      else (0, if c'.size != 0 && Full(rest, c'.size) then c'.(data := Overwritten(c.data, rest[0].bytes)) else c')
    else (0, c)
  }

  method AwaitAnswer(msg: Message, sd: Socket, cmd: Message) returns (ret: int)
    requires cmd != msg
    modifies msg, sd, cmd
    ensures (ret, msg.Value()) == Received(old(msg.Value()), old(sd.items))
  {
    assert !Has(0, EMI_MSG_CMD_SUCCEEDED);
    hide Has, Overwritten;
    ret := 0;
    if Has(msg.flag, EMI_MSG_FLAG_BLOCK) {
      cmd.flag := 0;
      var full := sd.ReadHead(cmd);
      if !full {
        ret := -1;
      }
      if Has(cmd.flag, EMI_MSG_CMD_SUCCEEDED) {
        ret := 0;
      } else {
        ret := -1;
      }
    } else if Has(msg.flag, EMI_MSG_FLAG_BLOCK_RETURN) {
      var full := sd.ReadHead(msg);
      if !full {
        ret := -1;
      }
      if Has(msg.flag, EMI_MSG_CMD_SUCCEEDED) {
        if msg.size != 0 {
          full := sd.ReadData(msg);
          if !full {
            ret := -1;
          }
        }
        ret := 0;
      } else {
        ret := -1;
      }
    }
  }

  /** The sender has set neither kind of message. */
  predicate Untyped(flag: bv32) { !Has(flag, EMI_MSG_TYPE_DATA) && !Has(flag, EMI_MSG_TYPE_CMD) }

  /** What emi_msg_send returns and leaves in msg, over a lossless connection; without a slot no answer comes. */
  ghost function Exchange(c: Content, slot: Option<seq<bv8>>, limit: nat, funcs: seq<Callback>, local: Content)
    : (int, Content)
    requires Sendable(c) && (slot.Some? ==> limit <= |slot.value|) && InRoom(funcs)
  {
    if Untyped(c.flag) then (-1, c)
    else Received(c, if slot.Some? then Answers(c, slot.value, limit, funcs, local) else [])
  }

  /** emi_msg_send, with the worker at the other end of the connection; slot is null when all slots are in use. */
  method Send(msg: Message, slot: Message?, limit: nat, funcs: seq<Callback>, cmd: Message, local: Message)
    returns (ret: int)
    requires Sendable(msg.Value()) && InRoom(funcs) && (slot != null ==> limit <= |slot.data|)
    requires cmd != msg && slot != msg && local != msg && local != slot
    modifies msg, slot, cmd, local
    ensures (ret, msg.Value()) == Exchange(old(msg.Value()), old(if slot == null then None else Some(slot.data)), limit,
                                           funcs, old(local.Value()))
  {
    hide Has, Answers, Received, Handled;
    if !Has(msg.flag, EMI_MSG_TYPE_DATA) && !Has(msg.flag, EMI_MSG_TYPE_CMD) {
      return -1;
    }
    ghost var request := msg.Value();
    ghost var answers := if slot == null then [] else Answers(request, slot.data, limit, funcs, local.Value());
    var sd := new Socket();
    var back := new Socket();
    sd.WriteHead(msg);
    if Has(msg.flag, EMI_MSG_TYPE_DATA) {
      sd.WriteData(msg);
    }
    if slot != null {
      Serve(slot, sd, back, limit, funcs, local, request);
    }
    assert msg.Value() == request && back.items == answers;
    ret := AwaitAnswer(msg, back, cmd);
  }

  // ----- What the callbacks see, and what becomes of it

  /** The data of a request is in the slot, and what lies behind stays. */
  lemma DataArrives(c: Content, slot: seq<bv8>, limit: nat)
    requires Sendable(c) && Read(c.flag, c.size, limit) && limit <= |slot|
    ensures Arrived(c, slot, limit).data == c.data[..c.size] + slot[c.size..]
    ensures Arrived(c, slot, limit).(data := c.data) == c
  {
    hide Has;
  }

  /** Without such data the slot stays as it was, but for the header. */
  lemma HeaderArrives(c: Content, slot: seq<bv8>, limit: nat)
    requires Sendable(c) && !Read(c.flag, c.size, limit)
    ensures Arrived(c, slot, limit) == c.(data := slot)
  {}

  predicate WantsValue(flag: bv32) { Has(flag, EMI_MSG_FLAG_BLOCK_RETURN) }

  /** Outside of return mode every callback for the message runs, whatever it returns. */
  lemma CallbackRuns(f: Callback, c: Content)
    requires !WantsValue(c.flag)
    ensures Handled([f], c) == if f.msg == c.msg then f.func(c).after else c
  {
    hide Has;
    assert [f][1..] == [];
  }

  /** Callbacks neither change the message nor ask for a value. */
  ghost predicate KeepPlain(funcs: seq<Callback>) {
    forall i, c: Content | 0 <= i < |funcs| && !WantsValue(c.flag) ::
      !WantsValue(funcs[i].func(c).after.flag) && funcs[i].func(c).after.msg == c.msg
  }

  /** And each of them on what the one before has left. */
  lemma {:induction false} CallbacksRunInOrder(first: seq<Callback>, rest: seq<Callback>, c: Content)
    requires !WantsValue(c.flag) && KeepPlain(first)
    ensures Handled(first + rest, c) == Handled(rest, Handled(first, c))
    decreases first
  {
    hide Has, SetBit, ClearBit;
    if first == [] {
      assert first + rest == rest;
    } else {
      assert (first + rest)[1..] == first[1..] + rest;
      assert KeepPlain(first[1..]);
      CallbacksRunInOrder(first[1..], rest, c);
      CallbacksRunInOrder(first[1..], rest, first[0].func(c).after);
    }
  }

  // ----- What a sender that does not wait gets

  /** Its send succeeds, with a slot or without, and leaves its message alone. */
  lemma NonblockSucceeds(c: Content, slot: Option<seq<bv8>>, limit: nat, funcs: seq<Callback>, local: Content)
    requires Sendable(c) && (slot.Some? ==> limit <= |slot.value|) && InRoom(funcs)
    requires !Untyped(c.flag) && !Has(c.flag, EMI_MSG_FLAG_BLOCK) && !WantsValue(c.flag)
    ensures Exchange(c, slot, limit, funcs, local) == (0, c)
  {
    hide Has, Answers;
  }

  /** A message of neither type is not sent. */
  lemma UntypedFails(c: Content, slot: Option<seq<bv8>>, limit: nat, funcs: seq<Callback>, local: Content)
    requires Sendable(c) && (slot.Some? ==> limit <= |slot.value|) && InRoom(funcs)
    requires !Has(c.flag, EMI_MSG_TYPE_DATA) && !Has(c.flag, EMI_MSG_TYPE_CMD)
    ensures Exchange(c, slot, limit, funcs, local) == (-1, c)
  {
    hide Has, Answers;
  }

  /** A registration that asks for a value gets its own message back, with nothing but the result bit. */
  lemma RegistrationSucceeds(c: Content, slot: seq<bv8>, limit: nat, funcs: seq<Callback>, local: Content)
    requires Sendable(c) && limit <= |slot| && InRoom(funcs) && !Untyped(c.flag)
    requires Has(c.flag, EMI_MSG_CMD_REGISTER) && WantsValue(c.flag) && !Has(c.flag, EMI_MSG_FLAG_BLOCK)
    ensures Exchange(c, Some(slot), limit, funcs, local) == (0, c.(flag := EMI_MSG_CMD_SUCCEEDED))
  {
    OwnBit(c.flag);
    hide Has, Answer, Handled;
  }

  // ----- What a sender that waits for a returned value gets

  predicate ReturnMode(flag: bv32) {
    && Has(flag, EMI_MSG_FLAG_BLOCK_RETURN) && !Has(flag, EMI_MSG_FLAG_BLOCK) && !Has(flag, EMI_MSG_FLAG_NONBLOCK)
    && !Has(flag, EMI_MSG_CMD_REGISTER)
  }

  /** The callback that runs. */
  ghost predicate First(funcs: seq<Callback>, msg: bv32, i: nat) {
    i < |funcs| && funcs[i].msg == msg && forall j | 0 <= j < i :: funcs[j].msg != msg
  }

  /** Setting or clearing the result bit leaves the modes. */
  lemma SetKeepsModes(flag: bv32)
    ensures Has(SetBit(flag, EMI_MSG_CMD_SUCCEEDED), EMI_MSG_FLAG_BLOCK) == Has(flag, EMI_MSG_FLAG_BLOCK)
    ensures Has(SetBit(flag, EMI_MSG_CMD_SUCCEEDED), EMI_MSG_FLAG_BLOCK_RETURN) == Has(flag, EMI_MSG_FLAG_BLOCK_RETURN)
    ensures Has(SetBit(flag, EMI_MSG_CMD_SUCCEEDED), EMI_MSG_FLAG_NONBLOCK) == Has(flag, EMI_MSG_FLAG_NONBLOCK)
    ensures Has(SetBit(flag, EMI_MSG_CMD_SUCCEEDED), EMI_MSG_CMD_REGISTER) == Has(flag, EMI_MSG_CMD_REGISTER)
  {}

  lemma ClearKeepsModes(flag: bv32)
    ensures Has(ClearBit(flag, EMI_MSG_CMD_SUCCEEDED), EMI_MSG_FLAG_BLOCK) == Has(flag, EMI_MSG_FLAG_BLOCK)
    ensures Has(ClearBit(flag, EMI_MSG_CMD_SUCCEEDED), EMI_MSG_FLAG_BLOCK_RETURN)
            == Has(flag, EMI_MSG_FLAG_BLOCK_RETURN)
    ensures Has(ClearBit(flag, EMI_MSG_CMD_SUCCEEDED), EMI_MSG_FLAG_NONBLOCK) == Has(flag, EMI_MSG_FLAG_NONBLOCK)
    ensures Has(ClearBit(flag, EMI_MSG_CMD_SUCCEEDED), EMI_MSG_CMD_REGISTER) == Has(flag, EMI_MSG_CMD_REGISTER)
  {}

  lemma OwnBit(flag: bv32)
    ensures Has(SetBit(flag, EMI_MSG_CMD_SUCCEEDED), EMI_MSG_CMD_SUCCEEDED)
    ensures !Has(ClearBit(flag, EMI_MSG_CMD_SUCCEEDED), EMI_MSG_CMD_SUCCEEDED)
    ensures Has(EMI_MSG_CMD_SUCCEEDED, EMI_MSG_CMD_SUCCEEDED)
  {}

  /** How the worker answers in return mode. */
  predicate WorkerReturns(flag: bv32) {
    Has(flag, EMI_MSG_FLAG_BLOCK_RETURN) && !Has(flag, EMI_MSG_FLAG_BLOCK) && !Has(flag, EMI_MSG_FLAG_NONBLOCK)
  }

  /** The flags after a callback: the result bit says what it returned, the modes are as it left them. */
  function ResultFlag(ret: int, flag: bv32): bv32 {
    if ret == 0 then SetBit(flag, EMI_MSG_CMD_SUCCEEDED) else ClearBit(flag, EMI_MSG_CMD_SUCCEEDED)
  }

  lemma ResultBits(ret: int, flag: bv32)
    ensures Has(ResultFlag(ret, flag), EMI_MSG_CMD_SUCCEEDED) <==> ret == 0
    ensures Has(ResultFlag(ret, flag), EMI_MSG_FLAG_BLOCK) == Has(flag, EMI_MSG_FLAG_BLOCK)
    ensures Has(ResultFlag(ret, flag), EMI_MSG_FLAG_NONBLOCK) == Has(flag, EMI_MSG_FLAG_NONBLOCK)
    ensures WorkerReturns(ResultFlag(ret, flag)) == WorkerReturns(flag)
  {
    OwnBit(flag);
    SetKeepsModes(flag);
    ClearKeepsModes(flag);
    hide Has, SetBit, ClearBit;
  }

  lemma {:induction false} HandledByFirst(funcs: seq<Callback>, c: Content, i: nat)
    requires First(funcs, c.msg, i) && Has(c.flag, EMI_MSG_FLAG_BLOCK_RETURN)
    ensures var Outcome(ret, c') := funcs[i].func(c);
            Handled(funcs, c) == c'.(flag := ResultFlag(ret, c'.flag))
    decreases i
  {
    hide Has, SetBit, ClearBit;
    if 0 < i {
      HandledByFirst(funcs[1..], c, i - 1);
    }
  }

  lemma {:induction false} HandledByNone(funcs: seq<Callback>, c: Content)
    requires forall i | 0 <= i < |funcs| :: funcs[i].msg != c.msg
    ensures Handled(funcs, c) == c
    decreases funcs
  {
    hide Has, SetBit, ClearBit;
    if funcs != [] {
      HandledByNone(funcs[1..], c);
    }
  }

  lemma ClearOfUnset(flag: bv32)
    requires !Has(flag, EMI_MSG_CMD_SUCCEEDED)
    ensures ClearBit(flag, EMI_MSG_CMD_SUCCEEDED) == flag
  {}

  lemma ClearForgets(flag: bv32)
    ensures ClearBit(SetBit(flag, EMI_MSG_CMD_SUCCEEDED), EMI_MSG_CMD_SUCCEEDED)
         == ClearBit(flag, EMI_MSG_CMD_SUCCEEDED)
  {}

  lemma ClearTwice(flag: bv32)
    ensures ClearBit(ClearBit(flag, EMI_MSG_CMD_SUCCEEDED), EMI_MSG_CMD_SUCCEEDED)
         == ClearBit(flag, EMI_MSG_CMD_SUCCEEDED)
  {}

  /** From the slot after the callbacks to the sender: 0 exactly for a set result bit and a size within the limit. */
  lemma AnswerReceived(c: Content, h: Content, limit: nat, local: Content)
    requires ReturnMode(c.flag) && WorkerReturns(h.flag) && (ReturnsData(h, limit) ==> h.size <= |h.data|)
    ensures var (ret, c') := Received(c, Answer(h, limit, local));
            && (ret == if ReturnsData(h, limit) then 0 else -1)
            && (c'.size, c'.cmd, c'.msg) == (h.size, h.cmd, h.msg)
            && c'.data == (if ret == 0 then Overwritten(c.data, h.data[..h.size]) else c.data)
            && c'.flag == if ret == 0 then EMI_MSG_CMD_SUCCEEDED else ClearBit(h.flag, EMI_MSG_CMD_SUCCEEDED)
  {
    SettledBits(h, limit);
    if !Has(h.flag, EMI_MSG_CMD_SUCCEEDED) {
      ClearOfUnset(h.flag);
    }
    hide Has, ClearBit;
    var items := Answer(h, limit, local);
    assert items[0] == Head(Settled(h, limit), h.size, h.cmd, h.msg);
    if ReturnsData(h, limit) {
      assert h.size != 0 ==> items[1..] == [Bytes(h.data[..h.size])];
      assert h.size == 0 ==> Overwritten(c.data, h.data[..h.size]) == c.data;
    }
  }

  /** What the sender sees if the worker does not answer in return mode: a bare success, or nothing but its own bit. */
  lemma OtherAnswerReceived(c: Content, h: Content, limit: nat, local: Content)
    requires ReturnMode(c.flag) && !WorkerReturns(h.flag) && (ReturnsData(h, limit) ==> h.size <= |h.data|)
    ensures var bare := Has(h.flag, EMI_MSG_FLAG_BLOCK) && !Has(h.flag, EMI_MSG_FLAG_NONBLOCK);
            Received(c, Answer(h, limit, local)).0 == if bare || Has(c.flag, EMI_MSG_CMD_SUCCEEDED) then 0 else -1
  {
    OwnBit(c.flag);
    hide Has, Settled;
  }

  /**
   * If a callback runs, it decides: as long as it leaves the modes alone, the send returns 0 exactly when it returned 0
   * and left a size within the limit, and then the sender has its size, and its bytes as far as they fit.
   */
  lemma CallbackDecides(c: Content, slot: seq<bv8>, limit: nat, funcs: seq<Callback>, i: nat, local: Content)
    requires ReturnMode(c.flag) && !Untyped(c.flag) && Sendable(c) && limit <= |slot| && InRoom(funcs)
    requires First(funcs, c.msg, i)
    ensures var Outcome(ret', h) := funcs[i].func(Arrived(c, slot, limit));
            var (ret, c') := Exchange(c, Some(slot), limit, funcs, local);
            && |h.data| == |slot|
            && (WorkerReturns(h.flag) ==>
                  && (ret == if ret' == 0 && h.size <= limit then 0 else -1)
                  && (c'.size, c'.cmd, c'.msg) == (h.size, h.cmd, h.msg)
                  && c'.flag == (if ret == 0 then EMI_MSG_CMD_SUCCEEDED else ClearBit(h.flag, EMI_MSG_CMD_SUCCEEDED))
                  && (ret == 0 ==> c'.data == Overwritten(c.data, h.data[..h.size]))
                  && (ret != 0 ==> c'.data == c.data))
            && (!WorkerReturns(h.flag) ==>
                  var bare := Has(h.flag, EMI_MSG_FLAG_BLOCK) && !Has(h.flag, EMI_MSG_FLAG_NONBLOCK);
                  ret == if bare || Has(c.flag, EMI_MSG_CMD_SUCCEEDED) then 0 else -1)
  {
    var arrived := Arrived(c, slot, limit);
    var Outcome(ret', h) := funcs[i].func(arrived);
    HandledByFirst(funcs, arrived, i);
    ResultBits(ret', h.flag);
    ClearForgets(h.flag);
    ClearTwice(h.flag);
    HandledInRoom(funcs, arrived);
    var handled := Handled(funcs, arrived);
    if WorkerReturns(h.flag) {
      AnswerReceived(c, handled, limit, local);
    } else {
      OtherAnswerReceived(c, handled, limit, local);
    }
    assert |h.data| == |arrived.data|;
    hide Has, SetBit, ClearBit, Handled, Answer, Received, Overwritten, InRoom;
  }

  /** If none runs, the bit that the sender itself had set comes back. */
  lemma SenderDecides(c: Content, slot: seq<bv8>, limit: nat, funcs: seq<Callback>, local: Content)
    requires ReturnMode(c.flag) && !Untyped(c.flag) && Sendable(c) && limit <= |slot| && InRoom(funcs)
    requires forall i | 0 <= i < |funcs| :: funcs[i].msg != c.msg
    ensures Exchange(c, Some(slot), limit, funcs, local).0
         == if Has(c.flag, EMI_MSG_CMD_SUCCEEDED) && c.size <= limit then 0 else -1
  {
    HandledByNone(funcs, Arrived(c, slot, limit));
    AnswerReceived(c, Arrived(c, slot, limit), limit, local);
    hide Has, Handled, Answer, Received, Overwritten, InRoom;
  }

  /** And without a slot too, without any worker. */
  lemma NoSlotReturnsOwnBit(c: Content, limit: nat, funcs: seq<Callback>, local: Content)
    requires ReturnMode(c.flag) && !Untyped(c.flag) && Sendable(c) && InRoom(funcs)
    ensures Exchange(c, None, limit, funcs, local) == (if Has(c.flag, EMI_MSG_CMD_SUCCEEDED) then 0 else -1, c)
  {
    hide Has;
  }

  lemma {:induction false} FirstOrNone(funcs: seq<Callback>, msg: bv32) returns (i: nat)
    ensures First(funcs, msg, i) || (i == |funcs| && forall j | 0 <= j < |funcs| :: funcs[j].msg != msg)
  {
    i := 0;
    while i < |funcs| && funcs[i].msg != msg
      invariant i <= |funcs|
      invariant forall j | 0 <= j < i :: funcs[j].msg != msg
    {
      i := i + 1;
    }
  }

  /**
   * A request that arrives without the result bit returns 0 exactly when its callback ran, returned 0 and kept the
   * limit, if that callback leaves the modes alone.
   */
  lemma ReturnsZeroIff(c: Content, slot: seq<bv8>, limit: nat, funcs: seq<Callback>, local: Content)
    requires ReturnMode(c.flag) && !Untyped(c.flag) && Sendable(c) && limit <= |slot| && InRoom(funcs)
    requires !Has(c.flag, EMI_MSG_CMD_SUCCEEDED)
    requires forall i: nat | First(funcs, c.msg, i) ::
               WorkerReturns(funcs[i].func(Arrived(c, slot, limit)).after.flag)
    ensures Exchange(c, Some(slot), limit, funcs, local).0 == 0
       <==> exists i: nat :: First(funcs, c.msg, i) && var out := funcs[i].func(Arrived(c, slot, limit));
                                                      out.ret == 0 && out.after.size <= limit
  {
    var i := FirstOrNone(funcs, c.msg);
    if i < |funcs| {
      CallbackDecides(c, slot, limit, funcs, i, local);
      assert forall j: nat :: First(funcs, c.msg, j) ==> j == i;
    } else {
      SenderDecides(c, slot, limit, funcs, local);
    }
    hide *;
  }

  /** With the result bit set by the sender, and no callback, it returns 0 although nobody received the message. */
  lemma ReturnsZeroUnheard(c: Content, slot: seq<bv8>, limit: nat, local: Content)
    requires c == Content(0x1_0201, 0, 0, 1, []) && limit <= |slot|
    ensures ReturnMode(c.flag) && Exchange(c, Some(slot), limit, [], local).0 == 0
    ensures Exchange(c, None, limit, [], local).0 == 0
  {
    SenderDecides(c, slot, limit, [], local);
    NoSlotReturnsOwnBit(c, limit, [], local);
  }

  /**
   * A callback that answers with emi_msg_prepare_return_data gets its bytes to a sender with room for them, or an
   * error to any sender if they are too many.
   */
  lemma AnswerReachesSender(c: Content, slot: seq<bv8>, limit: nat, funcs: seq<Callback>, i: nat, local: Content,
                            answer: Content -> seq<bv8>)
    requires ReturnMode(c.flag) && !Untyped(c.flag) && Sendable(c) && limit <= |slot| && InRoom(funcs)
    requires First(funcs, c.msg, i)
    requires forall x :: funcs[i].func(x) == Prepared(x, answer(x), limit)
    ensures var bytes := answer(Arrived(c, slot, limit));
            var (ret, c') := Exchange(c, Some(slot), limit, funcs, local);
            && (ret == 0 <==> |bytes| <= limit)
            && (ret == 0 ==> c'.size == |bytes| && (bytes <= c'.data <==> |bytes| <= |c.data|))
  {
    CallbackDecides(c, slot, limit, funcs, i, local);
    var arrived := Arrived(c, slot, limit);
    var bytes := answer(arrived);
    assert |bytes| <= limit ==> Overwritten(arrived.data, bytes)[..|bytes|] == bytes;
    hide Has, Exchange, Overwritten;
  }

  /** With a callback that leaves the slot alone, the sender gets its own data back. */
  lemma EchoReturnsData(c: Content, slot: seq<bv8>, limit: nat, local: Content)
    requires ReturnMode(c.flag) && Has(c.flag, EMI_MSG_TYPE_DATA) && Sendable(c) && 0 < c.size < limit <= |slot|
    ensures var (ret, c') := Exchange(c, Some(slot), limit, [Callback(c.msg, (x: Content) => Outcome(0, x))], local);
            ret == 0 && c' == c.(flag := EMI_MSG_CMD_SUCCEEDED)
  {
    var funcs := [Callback(c.msg, (x: Content) => Outcome(0, x))];
    DataArrives(c, slot, limit);
    CallbackDecides(c, slot, limit, funcs, 0, local);
    hide Has, Exchange, Arrived, ClearBit;
    assert Overwritten(c.data, c.data[..c.size]) == c.data;
    assert (c.data[..c.size] + slot[c.size..])[..c.size] == c.data[..c.size];
  }

  // ----- Lost answers

  /**
   * If the connection ends after n of the items of an answer, then without the header the sender returns its own result
   * bit, and with it what it would have returned; it notices the loss of the data in no other way than by its bytes.
   */
  lemma CutAnswer(c: Content, h: Content, limit: nat, local: Content, n: nat)
    requires ReturnMode(c.flag) && WorkerReturns(h.flag) && (ReturnsData(h, limit) ==> h.size <= |h.data|)
    requires n <= |Answer(h, limit, local)|
    ensures var items := Answer(h, limit, local);
            var (ret, c') := Received(c, items[..n]);
            && (n == 0 ==> (ret, c') == (if Has(c.flag, EMI_MSG_CMD_SUCCEEDED) then 0 else -1, c))
            && (0 < n ==> ret == (if ReturnsData(h, limit) then 0 else -1))
            && (0 < n && ret == 0 ==>
                  c'.data == if n == |items| then Overwritten(c.data, h.data[..h.size]) else c.data)
  {
    AnswerReceived(c, h, limit, local);
    SettledBits(h, limit);
    hide Has, Settled, Overwritten;
    var items := Answer(h, limit, local);
    if n == |items| {
      assert items[..n] == items;
    } else if n == 1 {
      assert items[..n] == [items[0]];
    }
  }

  // ----- Room

  /** The data that comes back is no longer than the sender's buffer. */
  ghost predicate Fits(c: Content, items: seq<Item>) {
    forall i | 0 <= i < |items| && items[i].Bytes? :: |items[i].bytes| <= |c.data|
  }

  /** A buffer of the sender is long enough for every callback if and only if it holds the configured limit. */
  lemma BufferSufficesIff(c: Content, slot: seq<bv8>, limit: nat, local: Content)
    requires ReturnMode(c.flag) && Sendable(c) && limit <= |slot|
    ensures (forall funcs | InRoom(funcs) :: Fits(c, Answers(c, slot, limit, funcs, local))) <==> limit <= |c.data|
  {
    hide Has;
    var fill := [Callback(c.msg, (x: Content) => Outcome(0, x.(size := limit)))];
    LongestAnswer(c, slot, limit, local, fill);
    forall funcs | InRoom(funcs) && limit <= |c.data|
      ensures Fits(c, Answers(c, slot, limit, funcs, local))
    {
      HandledInRoom(funcs, Arrived(c, slot, limit));
    }
  }

  lemma LongestAnswer(c: Content, slot: seq<bv8>, limit: nat, local: Content, fill: seq<Callback>)
    requires ReturnMode(c.flag) && Sendable(c) && limit <= |slot|
    requires fill == [Callback(c.msg, (x: Content) => Outcome(0, x.(size := limit)))]
    ensures InRoom(fill) && (Fits(c, Answers(c, slot, limit, fill, local)) ==> limit <= |c.data|)
  {
    var arrived := Arrived(c, slot, limit);
    var h := arrived.(size := limit);
    HandledByFirst(fill, arrived, 0);
    ResultBits(0, h.flag);
    HandledInRoom(fill, arrived);
    var handled := Handled(fill, arrived);
    assert ReturnsData(handled, limit) && WorkerReturns(handled.flag);
    hide Has, ResultFlag, Handled;
    if limit != 0 {
      var items := Answer(handled, limit, local);
      assert items[1] == Bytes(handled.data[..limit]);
    }
  }

  /**
   * Which configured limits suit slots with so much room: for the requests that are read, and for the data that is sent
   * back.
   */
  lemma SlotSufficesIff(limit: nat, room: nat)
    ensures (forall flag, size: nat | Read(flag, size, limit) :: size <= room) <==> limit <= room + 1
    ensures (forall h | ReturnsData(h, limit) :: h.size <= room) <==> limit <= room
  {
    assert Has(EMI_MSG_TYPE_DATA, EMI_MSG_TYPE_DATA) && !Has(EMI_MSG_TYPE_DATA, EMI_MSG_CMD_REGISTER);
    assert room + 1 < limit ==> Read(EMI_MSG_TYPE_DATA, room + 1, limit);
    assert Has(EMI_MSG_CMD_SUCCEEDED, EMI_MSG_CMD_SUCCEEDED);
    assert room < limit ==> ReturnsData(Content(EMI_MSG_CMD_SUCCEEDED, limit, 0, 0, []), limit);
    hide Has;
  }

  // ----- Block mode

  /** Callbacks that leave the modes alone. */
  ghost predicate LeaveModes(funcs: seq<Callback>) {
    forall i, c | 0 <= i < |funcs| ::
      var flag := funcs[i].func(c).after.flag;
      && Has(flag, EMI_MSG_FLAG_BLOCK) == Has(c.flag, EMI_MSG_FLAG_BLOCK)
      && Has(flag, EMI_MSG_FLAG_NONBLOCK) == Has(c.flag, EMI_MSG_FLAG_NONBLOCK)
  }

  lemma {:induction false} HandledKeepsMode(funcs: seq<Callback>, c: Content)
    requires LeaveModes(funcs)
    ensures Has(Handled(funcs, c).flag, EMI_MSG_FLAG_BLOCK) == Has(c.flag, EMI_MSG_FLAG_BLOCK)
    ensures Has(Handled(funcs, c).flag, EMI_MSG_FLAG_NONBLOCK) == Has(c.flag, EMI_MSG_FLAG_NONBLOCK)
    decreases funcs
  {
    if funcs != [] {
      var c' := funcs[0].func(c).after;
      SetKeepsModes(c'.flag);
      ClearKeepsModes(c'.flag);
      HandledKeepsMode(funcs[1..], c);
      HandledKeepsMode(funcs[1..], c');
    }
    hide Has, SetBit, ClearBit;
  }

  /**
   * In block mode the callbacks do not matter: 0 tells that a slot was found and that the worker was not told to be
   * silent.
   */
  lemma BlockModeReturnsZeroIff(c: Content, slot: Option<seq<bv8>>, limit: nat, funcs: seq<Callback>, local: Content)
    requires Has(c.flag, EMI_MSG_FLAG_BLOCK) && !Untyped(c.flag) && Sendable(c) && InRoom(funcs) && LeaveModes(funcs)
    requires slot.Some? ==> limit <= |slot.value|
    ensures Exchange(c, slot, limit, funcs, local).0 == 0
       <==> slot.Some? && (Has(c.flag, EMI_MSG_CMD_REGISTER) || !Has(c.flag, EMI_MSG_FLAG_NONBLOCK))
    ensures Exchange(c, slot, limit, funcs, local).1 == c
  {
    if slot.Some? {
      HandledKeepsMode(funcs, Arrived(c, slot.value, limit));
    }
    assert Has(EMI_MSG_CMD_SUCCEEDED, EMI_MSG_CMD_SUCCEEDED);
    hide Has, Handled;
  }
}
