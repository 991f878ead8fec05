/** struct context of test-pmd/cmdline_flow.c with its two fixed stacks, and the routines of the call
  column that change it in place.  Each is proved to do what its function in FlowParser says.
 */
module FlowContext {
  import opened FlowParser
  import opened Numbers
  import opened Wrappers

  /** struct context with its two fixed stacks. */
  class Context {
    const T: Table
    const next: array<List>
    const args: array<Arg>
    var nextNum: nat
    var argsNum: nat
    var started: bool
    var dataSize: nat
    var counter: nat
    var obj: int
    var objmask: Option<int>
    var out: Out

    ghost predicate Bounded()
      reads this
    {
      next.Length == CTX_STACK_SIZE && args.Length == CTX_STACK_SIZE
      && nextNum <= CTX_STACK_SIZE && argsNum <= CTX_STACK_SIZE
    }

    function Abs(): State
      requires Bounded()
      reads this, next, args
    {
      State(started, next[..nextNum], args[..argsNum], dataSize, counter, obj, objmask, out)
    }

    ghost predicate Valid()
      reads this, next, args
    {
      Bounded() && TableOk(T) && Inv(T, Abs())
    }

    constructor (table: Table)
      requires TableOk(table)
      ensures Valid() && T == table && Abs() == Fresh() && fresh(next) && fresh(args)
    {
      T := table;
      next := new List[CTX_STACK_SIZE](_ => FlowOnly);
      args := new Arg[CTX_STACK_SIZE](_ => IdArg);
      nextNum, argsNum, started := 0, 0, false;
      dataSize, counter, obj, objmask, out := 0, 0, 0, None, NoOut;
      new;
      FreshInv(T);
    }

    /** pop_args */
    method PopArgs() returns (r: Option<Arg>)
      requires Bounded()
      modifies `argsNum
      ensures Bounded() && (old(argsNum) == 0 ==> r == None && argsNum == 0)
      ensures old(argsNum) > 0 ==> r == Some(args[old(argsNum) - 1]) && argsNum == old(argsNum) - 1
    {
      if argsNum == 0 { return None; }
      argsNum := argsNum - 1;
      r := Some(args[argsNum]);
    }

    /** push_args */
    method PushArgs(a: Arg) returns (ok: bool)
      requires Bounded()
      modifies `argsNum, args
      ensures Bounded() && ok == (old(argsNum) < CTX_STACK_SIZE)
      ensures args[..argsNum] == if ok then old(args[..argsNum]) + [a] else old(args[..argsNum])
    {
      if argsNum == CTX_STACK_SIZE { return false; }
      args[argsNum] := a;
      argsNum := argsNum + 1;
      ok := true;
    }

    method PushNext(l: List) returns (ok: bool)
      requires Bounded()
      modifies `nextNum, next
      ensures Bounded() && ok == (old(nextNum) < CTX_STACK_SIZE)
      ensures next[..nextNum] == if ok then old(next[..nextNum]) + [l] else old(next[..nextNum])
    {
      if nextNum == CTX_STACK_SIZE { return false; }
      next[nextNum] := l;
      nextNum := nextNum + 1;
      ok := true;
    }

    /** The two loops at the end of cmd_flow_parse. */
    method PushRow(ls: seq<List>, more: seq<Arg>) returns (ok: bool)
      requires Bounded()
      modifies `nextNum, `argsNum, next, args
      ensures Bounded()
      ensures ok == (old(nextNum) + |ls| <= CTX_STACK_SIZE && old(argsNum) + |more| <= CTX_STACK_SIZE)
      ensures ok ==> next[..nextNum] == old(next[..nextNum]) + ls && args[..argsNum] == old(args[..argsNum]) + more
    {
      ok := true;
      for i := 0 to |ls|
        invariant Bounded() && nextNum == old(nextNum) + i && argsNum == old(argsNum)
        invariant next[..nextNum] == old(next[..nextNum]) + ls[..i] && args[..argsNum] == old(args[..argsNum])
      {
        ok := PushNext(ls[i]);
        if !ok { return; }
      }
      for i := 0 to |more|
        invariant Bounded() && argsNum == old(argsNum) + i && nextNum == old(nextNum) + |ls|
        invariant next[..nextNum] == old(next[..nextNum]) + ls && args[..argsNum] == old(args[..argsNum]) + more[..i]
      {
        ok := PushArgs(more[i]);
        if !ok { return; }
      }
    }

    /** parse_int and the parsers of addresses and names: one descriptor.  A number that does not
        convert puts it back. */
    method TakeOne(k: Kind, t: Input) returns (ok: bool)
      requires Bounded() && Pops(k) == 1
      modifies `argsNum, args
      ensures Bounded()
      ensures ok <==> ParseValue(old(Abs()), k, t).Some?
      ensures ok ==> Abs() == ParseValue(old(Abs()), k, t).value
    {
      hide Supports, TextOk;
      ghost var was := Abs();
      OneTextOk(k, was.args, t);
      var arg := PopArgs();
      if arg == None { return false; }
      if !Supports(k, arg.value) || !t.converts {
        var _ := PushArgs(arg.value);
        return false;
      }
      ok := IsNumber(k) ==> NumberFits(t.value, arg.value);
    }

    /** parse_string and parse_hex: the descriptors of data, length and address, in that order.
        The length goes through parse_int with its descriptor back on the stack. */
    method TakeThree(k: Kind, t: Input) returns (ok: bool)
      requires Bounded() && Pops(k) == 3
      modifies `argsNum, args
      ensures Bounded()
      ensures ok <==> ParseValue(old(Abs()), k, t).Some?
      ensures ok ==> Abs() == ParseValue(old(Abs()), k, t).value
    {
      hide Supports, TextOk, IntSize, NumberFits, HexBytes;
      ghost var was := Abs();
      ThreeTextOk(k, was.args, t);
      var data := PopArgs();
      var len := PopArgs();
      var addr := PopArgs();
      if data == None || len == None || addr == None { return false; }
      assert args[..argsNum] == was.args[..|was.args| - 3];
      if !Supports(k, data.value) || !t.converts { return false; }
      if k.Text? && t.len > data.value.size { return false; }
      if k.Hex? && !(0 < t.len <= HEX_DIGITS) { return false; }
      ok := StoreLength(len.value, if k.Hex? then HexBytes(t) else t.len);
    }

    /** The length of a string or of hex goes through parse_int, which finds its descriptor on top of
        the stack. */
    method StoreLength(len: Arg, n: nat) returns (ok: bool)
      requires Bounded() && argsNum < CTX_STACK_SIZE
      modifies `argsNum, args
      ensures Bounded() && argsNum == old(argsNum) && args[..argsNum] == old(args[..argsNum])
      ensures ok <==> IntSize(len) && NumberFits(n, len)
    {
      hide IntSize, NumberFits;
      ok := PushArgs(len);
      var arg := PopArgs();
      ok := IntSize(arg.value) && NumberFits(n, arg.value);
    }

    /** The value parsers on the stack of descriptors. */
    method TakeValue(k: Kind, t: Input) returns (ok: bool)
      requires Bounded()
      modifies `argsNum, args
      ensures Bounded()
      ensures ok <==> ParseValue(old(Abs()), k, t).Some?
      ensures ok ==> Abs() == ParseValue(old(Abs()), k, t).value
    {
      if Pops(k) == 1 { ok := TakeOne(k, t); } else { ok := TakeThree(k, t); }
    }

    /** ctx->objdata = 0, ctx->object = p, ctx->objmask = NULL. */
    method SetObject(p: int)
      requires Bounded()
      modifies `dataSize, `counter, `obj, `objmask
      ensures Abs() == PointAt(old(Abs()), p)
    {
      dataSize, counter := 0, 0;
      obj := p;
      objmask := None;
    }

    /** parse_init: the whole buffer is cleared. */
    method ParseInit() returns (ok: bool)
      requires Bounded() && InTable(T, Flow)
      modifies `dataSize, `counter, `obj, `objmask, `out
      ensures Bounded()
      ensures ok <==> Call(T, old(Abs()), Flow).Some?
      ensures ok ==> Abs() == Call(T, old(Abs()), Flow).value
    {
      if T.size < T.bufferSize { return false; }
      out := NoOut;
      SetObject(T.base);
      ok := true;
    }

    /** The first word of a command: it names the command and sets the pointers of the part of the
        union that the command uses. */
    method BeginCommand(w: Token) returns (ok: bool)
      requires Bounded()
      modifies `dataSize, `counter, `obj, `objmask, `out
      ensures Bounded()
      ensures ok <==> StartCommand(T, old(Abs()), w).Some?
      ensures ok ==> Abs() == StartCommand(T, old(Abs()), w).value
    {
      if out.command.Some? || T.bufferSize > T.size { return false; }
      out := out.(command := Some(w));
      SetObject(T.base);
      out := out.(ids := Ceil8(T.base + T.bufferSize));
      out := out.(data := T.base + T.size);
      ok := true;
    }

    /** One more entry in the item or action array, and its data. */
    method GrowArrays(w: Token, data: int, size: nat)
      modifies `out
      ensures out == Grow(old(out), w, data, size)
    {
      var blocks := out.blocks + [Block(data, size)];
      if !out.actionsSet {
        out := out.(items := out.items + [ItemSlot(w, None, None, None)], data := data, blocks := blocks);
      } else {
        out := out.(acts := out.acts + [ActionSlot(w, if size == 0 then None else Some(data))], data := data, blocks := blocks);
      }
    }

    /** The end of the array that is being filled, if another entry stays below the data. */
    method FindSlot(data: int) returns (slot: int, ok: bool)
      ensures slot == SlotAt(out) && (ok <==> slot + (if out.actionsSet then ACTION_SIZE else ITEM_SIZE) <= data)
    {
      if !out.actionsSet {
        slot := out.pattern + ITEM_SIZE * |out.items|;
        ok := slot + ITEM_SIZE <= data;
      } else {
        slot := out.actions + ACTION_SIZE * |out.acts|;
        ok := slot + ACTION_SIZE <= data;
      }
    }

    /** The end of parse_vc: a slot at the end of the item or action array, and `size` bytes of data
        below the data handed out so far.  Nothing is allocated when the two would meet. */
    method AllocateSlot(w: Token, size: nat) returns (ok: bool)
      requires Bounded()
      modifies `dataSize, `counter, `obj, `objmask, `out
      ensures Bounded()
      ensures ok <==> Allocate(T, old(Abs()), w, size).Some?
      ensures ok ==> Abs() == Allocate(T, old(Abs()), w, size).value
    {
      hide Floor8, Grow, SlotAt;
      var data := Floor8(out.data - size);
      var slot;
      slot, ok := FindSlot(data);
      if !ok { return; }
      obj, objmask := slot, None;
      GrowArrays(w, data, size);
      dataSize, counter := size, 0;
      ok := true;
    }

    /** parse_vc on a fresh buffer. */
    method ParseRuleFirst(w: Token) returns (ok: bool)
      requires Bounded() && InTable(T, w) && out.command.None?
      modifies `dataSize, `counter, `obj, `objmask, `out
      ensures Bounded()
      ensures ok <==> ParseVc(T, old(Abs()), w).Some?
      ensures ok ==> Abs() == ParseVc(T, old(Abs()), w).value
    {
      FirstOfRule(T, Abs(), w);
      hide ParseVc, StartCommand, InTable;
      if !w.Validate? && !w.Create? { return false; }
      ok := BeginCommand(w);
    }

    /** The switch of parse_vc for attributes and for the starts of the two arrays. */
    method ParseRuleHeader(w: Token) returns (ok: bool)
      requires Bounded() && InTable(T, w) && out.command.Some? && !Allocates(w)
      modifies `dataSize, `counter, `obj, `objmask, `out
      ensures Bounded()
      ensures ok <==> ParseVc(T, old(Abs()), w).Some?
      ensures ok ==> Abs() == ParseVc(T, old(Abs()), w).value
    {
      hide InTable, Ceil8;
      ok := true;
      SetObject(T.base + T.attrOffset);
      if w.Pattern? {
        out := out.(patternSet := true, pattern := Ceil8(T.base + T.bufferSize));
        obj := out.pattern;
      } else if w.Actions? {
        out := out.(actionsSet := true, actions := Ceil8(out.pattern + ITEM_SIZE * |out.items|));
        obj := out.actions;
      } else {
        match w
        case Group | Priority =>
        case Ingress => out := out.(ingress := true);
        case Egress => out := out.(egress := true);
        case Transfer => out := out.(transfer := true);
        case _ => ok := false;
      }
    }

    /** parse_vc for an item or an action. */
    method ParseRuleEntry(w: Token) returns (ok: bool)
      requires Bounded() && InTable(T, w) && out.command.Some? && Allocates(w)
      modifies `dataSize, `counter, `obj, `objmask, `out
      ensures Bounded()
      ensures ok <==> ParseVc(T, old(Abs()), w).Some?
      ensures ok ==> Abs() == ParseVc(T, old(Abs()), w).value
    {
      EntryAllocates(T, Abs(), w);
      AllocateIgnoresObject(T, Abs(), T.base + T.attrOffset, w, EntrySize(T, w));
      hide ParseVc, Allocate, InTable, EntrySize, Allocates;
      SetObject(T.base + T.attrOffset);
      ok := AllocateSlot(w, EntrySize(T, w));
    }

    /** parse_vc */
    method ParseRule(w: Token) returns (ok: bool)
      requires Bounded() && InTable(T, w)
      modifies `dataSize, `counter, `obj, `objmask, `out
      ensures Bounded()
      ensures ok <==> ParseVc(T, old(Abs()), w).Some?
      ensures ok ==> Abs() == ParseVc(T, old(Abs()), w).value
    {
      hide ParseVc, InTable, Allocates;
      if out.command.None? {
        ok := ParseRuleFirst(w);
      } else if Allocates(w) {
        ok := ParseRuleEntry(w);
      } else {
        ok := ParseRuleHeader(w);
      }
    }

    /** parse_vc_spec */
    method ParseSpec(p: Param) returns (ok: bool)
      requires Bounded()
      modifies `obj, `objmask, `out, next
      ensures Bounded()
      ensures ok <==> ParseVcSpec(T, old(Abs()), p).Some?
      ensures ok ==> Abs() == ParseVcSpec(T, old(Abs()), p).value
    {
      ghost var was := next[..nextNum];
      var index;
      var mask := false;
      match p {
        case Is => index, mask := 0, true;
        case Spec => index := 0;
        case Last => index := 1;
        case Mask => index := 2;
        case Prefix =>
          if nextNum < 2 { return false; }
          next[nextNum - 2] := Value(PrefixLength);
          assert next[..nextNum] == was[nextNum - 2 := Value(PrefixLength)];
          index := 2;
      }
      if |out.items| == 0 { return false; }
      var item := out.items[|out.items| - 1];
      var size := dataSize / 3;
      obj := out.data + size * index;
      if mask {
        objmask := Some(out.data + size * 2);
        item := item.(mask := objmask);
      } else {
        objmask := None;
      }
      if index == 0 {
        item := item.(spec := Some(obj));
      } else if index == 1 {
        item := item.(last := Some(obj));
      } else {
        item := item.(mask := Some(obj));
      }
      out := out.(items := out.items[|out.items| - 1 := item]);
      ok := true;
    }

    /** parse_destroy and parse_list */
    method ParseIdSlot(w: Token) returns (ok: bool)
      requires Bounded()
      modifies `dataSize, `counter, `obj, `objmask, `out
      ensures Bounded()
      ensures ok <==> ParseIds(T, old(Abs()), w).Some?
      ensures ok ==> Abs() == ParseIds(T, old(Abs()), w).value
    {
      hide StartCommand;
      if out.command.None? {
        if !w.Destroy? && !w.ListRules? { return false; }
        ok := BeginCommand(w);
        return;
      }
      var slot := out.ids + ID_SIZE * out.idN;
      if slot + ID_SIZE > T.base + T.size { return false; }
      SetObject(slot);
      out := out.(idN := out.idN + 1);
      ok := true;
    }

    /** parse_vc_conf: the configuration of the latest action. */
    method ParseConf()
      requires Bounded()
      modifies `obj, `objmask
      ensures Abs() == old(Abs()).(obj := out.data, objmask := None)
    {
      obj := out.data;
      objmask := None;
    }

    /** parse_vc_action_rss */
    method ParseRss() returns (ok: bool)
      requires Bounded() && InTable(T, Rss)
      modifies `dataSize, `counter, `obj, `objmask, `out
      ensures Bounded()
      ensures ok <==> Call(T, old(Abs()), Rss).Some?
      ensures ok ==> Abs() == Call(T, old(Abs()), Rss).value
    {
      hide ParseVc, InTable;
      ok := ParseRule(Rss);
      if !ok { return; }
      if |out.acts| == 0 { return false; }
      ParseConf();
    }

    /** parse_vc_action_rss_type: a type name pushes the list again, `end` does not. */
    method ParseRssType(end: bool) returns (ok: bool)
      requires Bounded() && InTable(T, RssType(end))
      modifies `counter, `nextNum, next
      ensures Bounded()
      ensures ok <==> Call(T, old(Abs()), RssType(end)).Some?
      ensures ok ==> Abs() == Call(T, old(Abs()), RssType(end)).value
    {
      if end {
        counter := 0;
        return true;
      }
      counter := 1;
      ok := PushNext(RssTypeList);
    }

    /** parse_vc_action_rss_queue: the descriptor of the next slot is pushed for parse_int, which
        takes it off again; the list is pushed again.  The index is stored at `at`. */
    method ParseRssQueue(end: bool) returns (ok: bool, at: int)
      requires Bounded() && InTable(T, RssQueue(end))
      modifies `counter, `nextNum, `argsNum, next, args
      ensures Bounded()
      ensures ok <==> Call(T, old(Abs()), RssQueue(end)).Some?
      ensures ok ==> Abs() == Call(T, old(Abs()), RssQueue(end)).value
      ensures ok && !end ==> at == obj + T.rssQueues + QUEUE_SIZE * old(counter)
    {
      at := 0;
      if end {
        counter := 0;
        return true, at;
      }
      if counter >= RSS_QUEUE_NUM { return false, at; }
      ghost var was := args[..argsNum];
      ok := PushArgs(Arg(T.rssQueues + QUEUE_SIZE * counter, QUEUE_SIZE, false, false));
      if !ok { return; }
      var arg := PopArgs();
      assert args[..argsNum] == was;
      at := obj + arg.value.offset;
      counter := counter + 1;
      ok := PushNext(RssQueueList);
    }

    /** The calls of words that change the stacks. */
    method CallLeaf(w: Token) returns (ok: bool)
      requires Bounded() && InTable(T, w) && LeafToken(w)
      modifies `counter, `obj, `objmask, `out, `nextNum, `argsNum, next, args
      ensures Bounded()
      ensures ok <==> Call(T, old(Abs()), w).Some?
      ensures ok ==> Abs() == Call(T, old(Abs()), w).value
    {
      LeafCallIs(T, Abs(), w);
      hide Call, ParseVcSpec, ParseValue, InTable;
      match w
      case ItemParam(p) => ok := ParseSpec(p);
      case RssType(end) => ok := ParseRssType(end);
      case RssQueue(end) =>
        var at;
        ok, at := ParseRssQueue(end);
      case Val(k, t) => ok := TakeValue(k, t);
      case RssFuncName => ok := true;
    }

    /** The calls of words that change the buffer. */
    method CallHome(w: Token) returns (ok: bool)
      requires Bounded() && InTable(T, w) && !LeafToken(w)
      modifies `dataSize, `counter, `obj, `objmask, `out
      ensures Bounded()
      ensures ok <==> Call(T, old(Abs()), w).Some?
      ensures ok ==> Abs() == Call(T, old(Abs()), w).value
    {
      HomeCallIs(T, Abs(), w);
      hide Call, ParseVc, ParseIds, StartCommand, InTable;
      match w
      case Flow => ok := ParseInit();
      case Destroy | ListRules | DestroyRule | ListGroup => ok := ParseIdSlot(w);
      case Flush | Query | Isolate =>
        ok := true;
        if out.command.None? { ok := BeginCommand(w); }
      case Validate | Create | Group | Priority | Ingress | Egress | Transfer | Pattern
        | ItemEnd | Item(_) | Actions | ActionEnd | Action(_) => ok := ParseRule(w);
      case ActionField(_, _) | RssQueues =>
        ParseConf();
        ok := true;
      case Rss => ok := ParseRss();
      case ItemNext | ItemField(_, _) | ActionNext | RssFunc | RssLevel | RssKeyLen | RssKey | RssTypes => ok := true;
    }

    /** The call column. */
    method CallToken(w: Token) returns (ok: bool)
      requires Bounded() && InTable(T, w)
      modifies this, next, args
      ensures Bounded()
      ensures ok <==> Call(T, old(Abs()), w).Some?
      ensures ok ==> Abs() == Call(T, old(Abs()), w).value
    {
      hide Call, InTable, LeafToken;
      if LeafToken(w) { ok := CallLeaf(w); } else { ok := CallHome(w); }
    }

    method AdvanceStacks(w: Token) returns (ok: bool)
      requires Bounded() && InTable(T, w)
      modifies this, next, args
      ensures ok <==> Advance(T, old(Abs()), w).Some?
      ensures ok ==> Bounded() && Abs() == Advance(T, old(Abs()), w).value
    {
      hide Next, Args, InTable;
      if nextNum == 0 { return false; }
      ghost var u := Abs();
      nextNum := nextNum - 1;
      assert next[..nextNum] == u.next[..|u.next| - 1];
      ok := PushRow(Next(T, w), Args(T, w));
    }

    method OpenStacks()
      requires Bounded()
      modifies this, next
      ensures Bounded() && Abs() == Open(old(Abs()))
    {
      if nextNum == 0 && !started {
        next[0], nextNum, started := FlowOnly, 1, true;
        assert next[..nextNum] == [FlowOnly];
      }
    }

    /** cmd_flow_parse.  A false result ends the run: the context is set up anew before the
        next command. */
    method Parse(w: Token) returns (ok: bool)
      requires Valid()
      modifies this, next, args
      ensures ok <==> Step(T, old(Abs()), w).Some?
      ensures ok ==> Valid() && Abs() == Step(T, old(Abs()), w).value
    {
      hide Inv, TableOk, Call, InTable, Member, Open, Advance;
      if Step(T, Abs(), w).Some? { StepKeepsInv(T, Abs(), w); }
      OpenStacks();
      if nextNum == 0 || !InTable(T, w) || !Member(T, next[nextNum - 1], w) { return false; }
      ok := CallToken(w);
      if ok { ok := AdvanceStacks(w); }
    }
  }

  lemma OneTextOk(k: Kind, args: seq<Arg>, t: Input)
    requires Pops(k) == 1
    ensures |args| >= 1 ==> (TextOk(k, args, t) <==> t.converts && (IsNumber(k) ==> NumberFits(t.value, args[|args| - 1])))
  {}

  lemma ThreeTextOk(k: Kind, args: seq<Arg>, t: Input)
    requires Pops(k) == 3
    ensures |args| >= 3 ==>
              var n := |args|;
              (TextOk(k, args, t) <==>
                 && t.converts && (k.Text? ==> t.len <= args[n - 1].size) && (k.Hex? ==> 0 < t.len <= HEX_DIGITS)
                 && NumberFits(if k.Hex? then HexBytes(t) else t.len, args[n - 2]))
  {}

  /** Where the object points does not matter to an allocation. */
  lemma AllocateIgnoresObject(T: Table, s: State, p: int, w: Token, size: nat)
    ensures Allocate(T, PointAt(s, p), w, size) == Allocate(T, s, w, size)
  {}
}
