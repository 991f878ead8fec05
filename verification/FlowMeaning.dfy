/** What a command line means to the reader of the output buffer: the arrays list the items and
  actions named, in order and terminated, every pointer leads to its own data, and each parameter
  of an item has its own part of that data.
 */
module FlowMeaning {
  import opened FlowParser
  import opened Numbers
  import opened Wrappers

  predicate ItemWord(w: Token) {
    w.Item? || w.ItemEnd?
  }

  predicate ActionWord(w: Token) {
    w.Action? || w.Rss? || w.ActionEnd?
  }

  predicate IdWord(w: Token) {
    w.DestroyRule? || w.ListGroup?
  }

  // ---------------------------------------------------------------- what one call records

  /** The change of the buffer by a word of a command that has begun; n is a third of the size of the
      latest item's data. */
  predicate Effect(T: Table, o: Out, o': Out, w: Token, n: nat)
    requires InTable(T, w)
  {
    && o'.command == o.command && o'.actionsSet == (o.actionsSet || w.Actions?)
    && o'.ingress == (o.ingress || w.Ingress?)
    && o'.egress == (o.egress || w.Egress?)
    && o'.transfer == (o.transfer || w.Transfer?)
    && o'.idN == o.idN + (if IdWord(w) then 1 else 0)
    && (Allocates(w) ==> o'.blocks == o.blocks + [Block(o'.data, EntrySize(T, w))])
    && (!Allocates(w) ==> o'.blocks == o.blocks)
    && (ActionWord(w) ==> o'.acts == o.acts + [ActionSlot(w, if EntrySize(T, w) == 0 then None else Some(o'.data))])
    && (!ActionWord(w) ==> o'.acts == o.acts)
    && (ItemWord(w) ==> o'.items == o.items + [ItemSlot(w, None, None, None)])
    && (w.ItemParam? ==> o.items != [] && o'.items == o.items[|o.items| - 1 := Redirected(o, w.p, n)])
    && (!ItemWord(w) && !w.ItemParam? ==> o'.items == o.items)
  }

  /** The latest item after a parameter: spec, last and mask are the three thirds of its data. */
  function Redirected(o: Out, p: Param, n: nat): ItemSlot
    requires o.items != []
  {
    var i := o.items[|o.items| - 1];
    match p
    case Is => i.(spec := Some(o.data), mask := Some(o.data + 2 * n))
    case Spec => i.(spec := Some(o.data))
    case Last => i.(last := Some(o.data + n))
    case Mask | Prefix => i.(mask := Some(o.data + 2 * n))
  }

  lemma GrowEffect(T: Table, o: Out, w: Token, data: int)
    requires InTable(T, w) && Allocates(w) && (o.actionsSet <==> ActionWord(w))
    ensures Effect(T, o, Grow(o, w, data, EntrySize(T, w)), w, 0)
  {
    hide EntrySize;
  }

  lemma AllocateGrows(T: Table, s: State, w: Token, len: nat) returns (data: int)
    requires Allocate(T, s, w, len).Some?
    ensures Allocate(T, s, w, len).value.out == Grow(s.out, w, data, len)
  {
    hide Floor8, Grow;
    data := Floor8(s.out.data - len);
  }

  /** The words with data of their own. */
  lemma EntryCall(T: Table, s: State, u: State, w: Token)
    requires InTable(T, w) && Allocates(w) && Call(T, s, w) == Some(u) && s.out.command.Some?
    ensures Allocate(T, s, w, EntrySize(T, w)).Some? && u.out == Allocate(T, s, w, EntrySize(T, w)).value.out
  {
    EntryAllocates(T, s, w);
    hide Allocate, EntrySize, ParseVc;
  }

  lemma AllocateEffect(T: Table, s: State, u: State, w: Token)
    requires InTable(T, w) && Allocates(w) && Call(T, s, w) == Some(u) && s.out.command.Some?
    requires s.out.actionsSet <==> ActionWord(w)
    ensures Effect(T, s.out, u.out, w, 0)
  {
    hide *;
    EntryCall(T, s, u, w);
    var data := AllocateGrows(T, s, w, EntrySize(T, w));
    GrowEffect(T, s.out, w, data);
  }

  lemma AttrEffect(T: Table, s: State, u: State, w: Token)
    requires InTable(T, w) && ParseVc(T, s, w) == Some(u) && s.out.command.Some? && !Allocates(w)
    ensures Effect(T, s.out, u.out, w, 0)
  {
    hide Ceil8;
  }

  lemma IdEffect(T: Table, s: State, u: State, w: Token)
    requires InTable(T, w) && IdWord(w) && ParseIds(T, s, w) == Some(u) && s.out.command.Some?
    ensures Effect(T, s.out, u.out, w, 0)
  {}

  lemma NoEffect(T: Table, o: Out, w: Token, n: nat)
    requires InTable(T, w) && !Allocates(w) && !IdWord(w) && !w.ItemParam?
    requires !w.Ingress? && !w.Egress? && !w.Transfer? && !w.Actions?
    ensures Effect(T, o, o, w, n)
  {}

  /** Words that only move to the next lists. */
  predicate Plain(w: Token) {
    || w.Flush? || w.Query? || w.Isolate? || w.ActionField? || w.RssQueues?
    || w.ItemNext? || w.ItemField? || w.ActionNext? || w.RssFunc? || w.RssLevel? || w.RssKeyLen? || w.RssKey? || w.RssTypes?
  }

  lemma PlainCall(T: Table, s: State, u: State, w: Token)
    requires InTable(T, w) && Plain(w) && Call(T, s, w) == Some(u) && s.out.command.Some?
    ensures u.out == s.out
  {
    HomeCallIs(T, s, w);
    hide Call;
  }

  lemma PlainEffect(T: Table, s: State, u: State, w: Token)
    requires InTable(T, w) && Plain(w) && Call(T, s, w) == Some(u) && s.out.command.Some?
    ensures Effect(T, s.out, u.out, w, 0)
  {
    PlainCall(T, s, u, w);
    hide Call, Effect;
    NoEffect(T, s.out, w, 0);
  }

  predicate AttrWord(w: Token) {
    w.Validate? || w.Create? || w.Group? || w.Priority? || w.Ingress? || w.Egress? || w.Transfer? || w.Pattern? || w.Actions?
  }

  predicate ListWord(w: Token) {
    w.Destroy? || w.ListRules? || w.DestroyRule? || w.ListGroup?
  }

  lemma HomeWordCases(w: Token)
    ensures !LeafToken(w) && !Allocates(w) && !w.Flow? ==> AttrWord(w) || ListWord(w) || Plain(w)
  {}

  lemma AttrCall(T: Table, s: State, w: Token)
    requires InTable(T, w)
    ensures AttrWord(w) ==> Call(T, s, w) == ParseVc(T, s, w) && !Allocates(w)
    ensures ListWord(w) ==> Call(T, s, w) == ParseIds(T, s, w)
  {
    hide ParseVc, ParseIds;
  }

  lemma HeaderEffect(T: Table, s: State, u: State, w: Token)
    requires InTable(T, w) && !Allocates(w) && !LeafToken(w) && !w.Flow? && !w.Destroy? && !w.ListRules?
    requires Call(T, s, w) == Some(u) && s.out.command.Some?
    ensures Effect(T, s.out, u.out, w, 0)
  {
    HomeWordCases(w);
    AttrCall(T, s, w);
    hide Call, Effect, ParseVc, ParseIds, InTable, Allocates;
    if Plain(w) {
      PlainEffect(T, s, u, w);
    } else if AttrWord(w) {
      AttrEffect(T, s, u, w);
    } else {
      IdEffect(T, s, u, w);
    }
  }

  lemma ParamEffect(T: Table, s: State, u: State, w: Token)
    requires w.ItemParam? && Call(T, s, w) == Some(u) && s.out.command.Some?
    ensures Effect(T, s.out, u.out, w, s.dataSize / 3)
  {
    LeafCallIs(T, s, w);
    hide Call;
  }

  lemma LeafEffect(T: Table, s: State, u: State, w: Token)
    requires InTable(T, w) && LeafToken(w) && !w.ItemParam? && Call(T, s, w) == Some(u) && s.out.command.Some?
    ensures Effect(T, s.out, u.out, w, 0)
  {
    LeafCallOut(T, s, u, w);
    hide Call;
  }

  lemma CallEffect(T: Table, s: State, u: State, w: Token)
    requires InTable(T, w) && !w.Flow? && !w.Destroy? && !w.ListRules?
    requires Call(T, s, w) == Some(u) && s.out.command.Some?
    requires Allocates(w) ==> (s.out.actionsSet <==> ActionWord(w))
    ensures Effect(T, s.out, u.out, w, s.dataSize / 3)
  {
    if Allocates(w) {
      AllocateEffect(T, s, u, w);
    } else if !LeafToken(w) {
      HeaderEffect(T, s, u, w);
    } else if w.ItemParam? {
      ParamEffect(T, s, u, w);
      return;
    } else {
      LeafEffect(T, s, u, w);
    }
    hide Call, EntrySize;
  }

  // ---------------------------------------------------------------- one word in a command

  /** What is known of a word accepted after the command word: it is in the table, no command word,
      and an item or an action only where the list for one is expected. */
  lemma WordInCommand(T: Table, s: State, w: Token) returns (u: State)
    requires TableOk(T) && Inv(T, s) && s.out.command.Some? && Step(T, s, w).Some?
    ensures InTable(T, w) && Call(T, s, w) == Some(u) && s.next != []
    ensures !w.Flow? && !w.Destroy? && !w.ListRules?
    ensures Allocates(w) ==> (s.out.actionsSet <==> ActionWord(w))
    ensures w.ItemParam? ==> s.next[0].FieldsOf? && ItemHome(T, s, s.next[0].i)
    ensures Step(T, s, w).value == u.(next := Step(T, s, w).value.next, args := Step(T, s, w).value.args)
  {
    hide *;
    var s';
    s', u := StepInversion(T, s, w);
    InvElim(T, s);
    NoCommandYet();
    assert s' == s;
    LeafTokens(T, s.next[|s.next| - 1], w);
    WordHomes(T, s, w);
    if LeafToken(w) {
      LeafIsNoEntry(w);
      PlacedItemHome(T, s);
      LeafMembers(T, s.next[|s.next| - 1], w);
    } else {
      NothingElsePending(s.next, s.args);
      HomeIsNoLeaf(w);
    }
  }

  lemma NoCommandYet()
    ensures NoOut.command == None
  {}

  lemma LeafIsNoEntry(w: Token)
    requires LeafToken(w)
    ensures !Allocates(w) && !w.Flow? && !w.Destroy? && !w.ListRules?
  {}

  lemma HomeIsNoLeaf(w: Token)
    requires !LeafToken(w)
    ensures !w.ItemParam?
  {}

  lemma WordHomes(T: Table, s: State, w: Token)
    requires s.next != [] && Placed(T, s, s.next) && Member(T, s.next[|s.next| - 1], w) && s.out.command.Some?
    ensures |s.next| == 1 && !LeafToken(w) ==> !w.Flow? && !w.Destroy? && !w.ListRules?
    ensures |s.next| == 1 && !LeafToken(w) && Allocates(w) ==> (s.out.actionsSet <==> ActionWord(w))
  {
    hide BufferSound, RowBlock, IdsSound;
  }

  // ---------------------------------------------------------------- items, actions and their data

  /** An item's data is its specification three times over, and its pointers, where set, lead to the
      first, second and third part of it. */
  predicate ItemPointed(T: Table, i: ItemSlot, b: Block) {
    && ItemWord(i.kind) && InTable(T, i.kind) && b.len == EntrySize(T, i.kind)
    && i.spec in {None, Some(b.addr)}
    && i.last in {None, Some(b.addr + b.len / 3)}
    && i.mask in {None, Some(b.addr + 2 * (b.len / 3))}
  }

  /** An action's pointer leads to its configuration, if it has one. */
  predicate ActionPointed(T: Table, a: ActionSlot, b: Block) {
    && ActionWord(a.kind) && InTable(T, a.kind) && b.len == EntrySize(T, a.kind)
    && a.conf == if b.len == 0 then None else Some(b.addr)
  }

  /** Each entry has a data block of its own: the items first, then the actions. */
  predicate Pointed(T: Table, o: Out) {
    && |o.blocks| == |o.items| + |o.acts| && (!o.actionsSet ==> o.acts == [])
    && (forall k | 0 <= k < |o.items| :: ItemPointed(T, o.items[k], o.blocks[k]))
    && (forall k | 0 <= k < |o.acts| :: ActionPointed(T, o.acts[k], o.blocks[|o.items| + k]))
  }

  lemma EntryPointed(T: Table, o: Out, o': Out, w: Token, n: nat)
    requires Pointed(T, o) && InTable(T, w) && Effect(T, o, o', w, n)
    requires Allocates(w) && (o.actionsSet <==> ActionWord(w))
    ensures Pointed(T, o')
  {
    hide EntrySize, InTable;
    var b := Block(o'.data, EntrySize(T, w));
    if ItemWord(w) {
      assert ItemPointed(T, ItemSlot(w, None, None, None), b);
    } else {
      assert ActionPointed(T, ActionSlot(w, if b.len == 0 then None else Some(b.addr)), b);
    }
    hide ItemPointed, ActionPointed;
    forall k | 0 <= k < |o'.items| ensures ItemPointed(T, o'.items[k], o'.blocks[k]) {
      if k < |o.items| { assert ItemPointed(T, o.items[k], o.blocks[k]); }
    }
    forall k | 0 <= k < |o'.acts| ensures ActionPointed(T, o'.acts[k], o'.blocks[|o'.items| + k]) {
      if k < |o.acts| { assert ActionPointed(T, o.acts[k], o.blocks[|o.items| + k]); }
    }
  }

  lemma ParamPointed(T: Table, o: Out, o': Out, w: Token, n: nat)
    requires Pointed(T, o) && InTable(T, w) && Effect(T, o, o', w, n)
    requires w.ItemParam? && !o.actionsSet && LastBlock(o, 3 * n)
    ensures Pointed(T, o')
  {
    hide EntrySize, InTable;
    var latest := |o.items| - 1;
    assert ItemPointed(T, o.items[latest], o.blocks[latest]);
    assert ItemPointed(T, o'.items[latest], o'.blocks[latest]);
    hide ItemPointed, ActionPointed;
    forall k | 0 <= k < |o'.items| ensures ItemPointed(T, o'.items[k], o'.blocks[k]) {
      if k < latest { assert ItemPointed(T, o.items[k], o.blocks[k]); }
    }
  }

  lemma OtherPointed(T: Table, o: Out, o': Out, w: Token, n: nat)
    requires Pointed(T, o) && InTable(T, w) && Effect(T, o, o', w, n) && !Allocates(w) && !w.ItemParam?
    ensures Pointed(T, o')
  {
    hide ItemPointed, ActionPointed;
  }

  lemma EffectPointed(T: Table, o: Out, o': Out, w: Token, n: nat)
    requires Pointed(T, o) && InTable(T, w) && Effect(T, o, o', w, n)
    requires Allocates(w) ==> (o.actionsSet <==> ActionWord(w))
    requires w.ItemParam? ==> !o.actionsSet && LastBlock(o, 3 * n)
    ensures Pointed(T, o')
  {
    hide *;
    if Allocates(w) {
      EntryPointed(T, o, o', w, n);
    } else if w.ItemParam? {
      ParamPointed(T, o, o', w, n);
    } else {
      OtherPointed(T, o, o', w, n);
    }
  }

  // ---------------------------------------------------------------- what the words said

  /** The words of one sort, in order. */
  function Select(ws: seq<Token>, sort: Token -> bool): (r: seq<Token>) {
    if ws == [] then []
    else
      var n := |ws| - 1;
      Select(ws[..n], sort) + if sort(ws[n]) then [ws[n]] else []
  }

  lemma SelectMore(ws: seq<Token>, w: Token, sort: Token -> bool)
    ensures Select(ws + [w], sort) == Select(ws, sort) + if sort(w) then [w] else []
  {
    assert (ws + [w])[..|ws|] == ws;
  }

  /** The buffer records the words of the command: its name, the attributes given, and the items and
      actions in the order they were named, each once. */
  predicate Recorded(ws: seq<Token>, o: Out) {
    && |ws| >= 2 && o.command == Some(ws[1])
    && (o.ingress <==> Ingress in ws) && (o.egress <==> Egress in ws) && (o.transfer <==> Transfer in ws)
    && |o.items| == |Select(ws, ItemWord)| && |o.acts| == |Select(ws, ActionWord)|
    && (forall k | 0 <= k < |o.items| :: o.items[k].kind == Select(ws, ItemWord)[k])
    && (forall k | 0 <= k < |o.acts| :: o.acts[k].kind == Select(ws, ActionWord)[k])
    && o.idN == |Select(ws, IdWord)|
  }

  lemma EffectRecorded(T: Table, ws: seq<Token>, o: Out, o': Out, w: Token, n: nat)
    requires Recorded(ws, o) && InTable(T, w) && Effect(T, o, o', w, n)
    ensures Recorded(ws + [w], o')
  {
    hide Select, EntrySize, InTable;
    SelectMore(ws, w, ItemWord);
    SelectMore(ws, w, ActionWord);
    SelectMore(ws, w, IdWord);
  }

  // ---------------------------------------------------------------- both arrays end with END

  predicate OpenItems(o: Out) {
    forall k | 0 <= k < |o.items| :: o.items[k].kind != ItemEnd
  }

  predicate OpenActions(o: Out) {
    forall k | 0 <= k < |o.acts| :: o.acts[k].kind != ActionEnd
  }

  /** END is the last item and no other. */
  predicate ItemsEnded(o: Out) {
    o.items != [] && forall k | 0 <= k < |o.items| :: o.items[k].kind == ItemEnd <==> k == |o.items| - 1
  }

  predicate ActionsEnded(o: Out) {
    o.acts != [] && forall k | 0 <= k < |o.acts| :: o.acts[k].kind == ActionEnd <==> k == |o.acts| - 1
  }

  /** How far a rule is, by the list at the bottom of the stack. */
  predicate InRule(next: seq<List>, o: Out) {
    if next == [] then ItemsEnded(o) && ActionsEnded(o)
    else match next[0]
      case VcAttrs => o.items == [] && o.acts == []
      case NextItem => OpenItems(o) && o.acts == []
      case FieldsOf(_) => OpenItems(o) && o.acts == []
      case JustActions => ItemsEnded(o) && o.acts == []
      case NextAction => ItemsEnded(o) && OpenActions(o)
      case ActionFieldsOf(_) => ItemsEnded(o) && OpenActions(o)
      case RssFields => ItemsEnded(o) && OpenActions(o)
      case _ => false
  }

  predicate RuleCommand(o: Out) {
    o.command == Some(Validate) || o.command == Some(Create)
  }

  lemma HomeWordInRule(T: Table, home: List, w: Token, o: Out, o': Out, n: nat)
    requires InRule([home], o) && Member(T, home, w) && InTable(T, w) && !LeafToken(w) && Effect(T, o, o', w, n)
    ensures InRule(Next(T, w), o')
  {
    hide EntrySize, InTable;
  }

  lemma LeafWordInRule(T: Table, next: seq<List>, next': seq<List>, w: Token, o: Out, o': Out, n: nat)
    requires InRule(next, o) && next != [] && InTable(T, w) && LeafToken(w) && Effect(T, o, o', w, n)
    requires next' != [] && next'[0] == next[0]
    ensures InRule(next', o')
  {
    hide EntrySize, InTable;
  }

  // ---------------------------------------------------------------- every command

  /** What the state holds after the words ws. */
  ghost predicate Meaning(T: Table, ws: seq<Token>, s: State) {
    && Inv(T, s)
    && (ws == [] ==> s == Fresh())
    && (|ws| == 1 ==> ws == [Flow] && s.started && s.next == [Top] && s.args == [] && s.out == NoOut)
    && (|ws| >= 2 ==> Recorded(ws, s.out) && Pointed(T, s.out) && (RuleCommand(s.out) ==> InRule(s.next, s.out)))
  }

  lemma FirstWord(T: Table, w: Token)
    requires Step(T, Fresh(), w).Some?
    ensures var t := Step(T, Fresh(), w).value;
            w == Flow && t.started && t.next == [Top] && t.args == [] && t.out == NoOut
  {
    hide ParseVc, ParseIds, ParseVcSpec, ParseValue, StartCommand;
  }

  lemma CommandWord(T: Table, s: State, w: Token)
    requires TableOk(T) && Inv(T, s) && s.started && s.next == [Top] && s.args == [] && s.out == NoOut
    requires Step(T, s, w).Some?
    ensures var t := Step(T, s, w).value;
            && Member(T, Top, w) && InTable(T, w) && t.next == Next(T, w)
            && t.out == NoOut.(command := Some(w), ids := t.out.ids, data := t.out.data)
  {
    hide *;
    var s', u := StepInversion(T, s, w);
    assert s' == s;
    InvElim(T, s);
    TopCall(T, s, w);
    LeafTokens(T, Top, w);
    TopIsHome();
    HomeCallFacts(T, s, u, w);
    StartIs(T, s, w);
    assert u.next[..|u.next| - 1] + Next(T, w) == Next(T, w);
  }

  lemma TopIsHome()
    ensures !Leaf(Top)
  {}

  lemma StartIs(T: Table, s: State, w: Token)
    requires StartCommand(T, s, w).Some?
    ensures var u := StartCommand(T, s, w).value;
            u.out == s.out.(command := Some(w), ids := u.out.ids, data := u.out.data)
  {}

  lemma NoneSelected(w: Token, sort: Token -> bool)
    requires !sort(Flow) && !sort(w)
    ensures Select([Flow] + [w], sort) == []
  {
    SelectMore([], Flow, sort);
    SelectMore([Flow], w, sort);
    assert [] + [Flow] == [Flow];
  }

  lemma CommandNames(T: Table, w: Token)
    requires Member(T, Top, w)
    ensures !ItemWord(w) && !ActionWord(w) && !IdWord(w) && !w.Ingress? && !w.Egress? && !w.Transfer?
  {}

  lemma CommandRule(T: Table, w: Token)
    requires InTable(T, w) && (w == Validate || w == Create)
    ensures Next(T, w) == [VcAttrs, Value(PortId)]
  {}

  /** Nothing but the command is recorded at first. */
  lemma CommandRecorded(T: Table, w: Token, o: Out)
    requires Member(T, Top, w) && InTable(T, w) && o == NoOut.(command := Some(w), ids := o.ids, data := o.data)
    ensures Recorded([Flow] + [w], o) && Pointed(T, o)
    ensures RuleCommand(o) ==> InRule(Next(T, w), o)
  {
    CommandNames(T, w);
    NoneSelected(w, ItemWord);
    NoneSelected(w, ActionWord);
    NoneSelected(w, IdWord);
    if RuleCommand(o) { CommandRule(T, w); }
    hide Select, Member, InTable, Next;
  }

  lemma InRuleHome(next: seq<List>, o: Out)
    requires InRule(next, o) && next != []
    ensures !Leaf(next[0])
  {}

  /** A leaf word leaves the bottom of the stack alone. */
  lemma LeafNext(T: Table, s: State, u: State, w: Token)
    requires StacksOk(s.next, s.args) && s.next != [] && !Leaf(s.next[0]) && Member(T, s.next[|s.next| - 1], w)
    requires InTable(T, w) && LeafToken(w) && Call(T, s, w) == Some(u)
    ensures |u.next| >= 2 && u.next[0] == s.next[0]
  {
    LeafTokens(T, s.next[|s.next| - 1], w);
    LeafCallFacts(T, s, u, w);
    ShapeFacts(s.next, s.args);
    LeafMembers(T, s.next[|s.next| - 1], w);
    hide Call, Matched;
  }

  lemma StepInRule(T: Table, s: State, w: Token, u: State, n: nat)
    requires TableOk(T) && Inv(T, s) && s.out.command.Some? && Step(T, s, w).Some? && s.next != [] && s.started
    requires InTable(T, w) && Call(T, s, w) == Some(u) && Effect(T, s.out, u.out, w, n) && InRule(s.next, s.out)
    ensures InRule(Step(T, s, w).value.next, u.out)
  {
    hide *;
    var s', u' := StepInversion(T, s, w);
    InvElim(T, s);
    InRuleHome(s.next, s.out);
    LeafTokens(T, s.next[|s.next| - 1], w);
    var next := Step(T, s, w).value.next;
    if LeafToken(w) {
      LeafNext(T, s, u, w);
      LeafRowFacts(T, w);
      LeafWordInRule(T, s.next, next, w, s.out, u.out, n);
    } else {
      NothingElsePending(s.next, s.args);
      HomeCallFacts(T, s, u, w);
      assert s.next == [s.next[0]] && u.next[..|u.next| - 1] + Next(T, w) == Next(T, w);
      HomeWordInRule(T, s.next[0], w, s.out, u.out, n);
    }
  }

  lemma ParamBlock(T: Table, s: State, i: nat)
    requires ItemHome(T, s, i)
    ensures !s.out.actionsSet && LastBlock(s.out, 3 * (s.dataSize / 3)) && s.dataSize / 3 == T.items[i].size
  {
    hide BufferSound;
  }

  lemma RecordedCommand(ws: seq<Token>, s: State, T: Table)
    requires Recorded(ws, s.out) && Inv(T, s)
    ensures s.out.command.Some? && s.started
  {
    InvElim(T, s);
    hide Inv;
  }

  lemma EffectCommand(T: Table, o: Out, o': Out, w: Token, n: nat)
    requires InTable(T, w) && Effect(T, o, o', w, n)
    ensures RuleCommand(o') == RuleCommand(o)
  {}

  lemma LaterWord(T: Table, ws: seq<Token>, s: State, w: Token)
    requires TableOk(T) && Inv(T, s) && Step(T, s, w).Some?
    requires Recorded(ws, s.out) && Pointed(T, s.out) && (RuleCommand(s.out) ==> InRule(s.next, s.out))
    ensures var t := Step(T, s, w).value;
            && Recorded(ws + [w], t.out) && Pointed(T, t.out)
            && (RuleCommand(t.out) ==> InRule(t.next, t.out))
  {
    hide *;
    RecordedCommand(ws, s, T);
    var u := WordInCommand(T, s, w);
    CallEffect(T, s, u, w);
    if w.ItemParam? { ParamBlock(T, s, s.next[0].i); }
    EffectRecorded(T, ws, s.out, u.out, w, s.dataSize / 3);
    EffectPointed(T, s.out, u.out, w, s.dataSize / 3);
    EffectCommand(T, s.out, u.out, w, s.dataSize / 3);
    if RuleCommand(s.out) {
      StepInRule(T, s, w, u, s.dataSize / 3);
    }
  }

  lemma StepMeaning(T: Table, ws: seq<Token>, s: State, w: Token)
    requires TableOk(T) && Meaning(T, ws, s) && Step(T, s, w).Some?
    ensures Meaning(T, ws + [w], Step(T, s, w).value)
  {
    StepKeepsInv(T, s, w);
    hide Inv, Step, Recorded, Pointed, InRule, TableOk, RuleCommand, Next, Fresh;
    if ws == [] {
      FirstWord(T, w);
      assert ws + [w] == [Flow];
    } else if |ws| == 1 {
      CommandWord(T, s, w);
      CommandRecorded(T, w, Step(T, s, w).value.out);
    } else {
      LaterWord(T, ws, s, w);
    }
  }

  lemma {:induction false} RunMeaning(T: Table, ws: seq<Token>, s: State, more: seq<Token>)
    requires TableOk(T) && Meaning(T, ws, s) && Run(T, s, more).Some?
    ensures Meaning(T, ws + more, Run(T, s, more).value)
    decreases |more|
  {
    hide Meaning, Step;
    if more == [] {
      assert ws + more == ws;
    } else {
      StepMeaning(T, ws, s, more[0]);
      RunMeaning(T, ws + [more[0]], Step(T, s, more[0]).value, more[1..]);
      assert ws + [more[0]] + more[1..] == ws + more;
    }
  }

  lemma FreshMeaning(T: Table)
    ensures Meaning(T, [], Fresh())
  {
    FreshInv(T);
    hide Inv;
  }

  lemma MeaningElim(T: Table, ws: seq<Token>, s: State)
    requires Meaning(T, ws, s) && |ws| >= 2
    ensures Inv(T, s) && Recorded(ws, s.out) && Pointed(T, s.out) && (RuleCommand(s.out) ==> InRule(s.next, s.out))
  {
    hide Inv, Recorded, Pointed, InRule;
  }

  /** Main result on the buffer's contents: after any accepted words, the buffer names the command,
      has exactly the attributes given, and lists the items and actions named, in order. */
  lemma RecordedOverEveryRun(T: Table, ws: seq<Token>)
    requires TableOk(T) && |ws| >= 2 && Run(T, Fresh(), ws).Some?
    ensures Recorded(ws, Run(T, Fresh(), ws).value.out)
  {
    hide *;
    FreshMeaning(T);
    RunMeaning(T, [], Fresh(), ws);
    assert [] + ws == ws;
    MeaningElim(T, ws, Run(T, Fresh(), ws).value);
  }

  /** Main result on pointers: at every moment each item and action has a data block of its own, of its
      own size, and all pointers set lead into that block, to the part they stand for. */
  lemma PointersOverEveryRun(T: Table, ws: seq<Token>)
    requires TableOk(T) && |ws| >= 2 && Run(T, Fresh(), ws).Some?
    ensures Pointed(T, Run(T, Fresh(), ws).value.out)
  {
    hide *;
    FreshMeaning(T);
    RunMeaning(T, [], Fresh(), ws);
    assert [] + ws == ws;
    MeaningElim(T, ws, Run(T, Fresh(), ws).value);
  }

  lemma CompleteRule(T: Table, s: State)
    requires Complete(s) && InRule(s.next, s.out) && Inv(T, s)
    ensures s.next == []
  {
    InvElim(T, s);
    hide Inv;
    if s.next != [] {
      EndsOnBottomList(s);
      NothingElsePending(s.next, s.args);
    }
  }

  lemma NothingLeft(o: Out)
    requires InRule([], o)
    ensures ItemsEnded(o) && ActionsEnded(o)
  {}

  /** Who reads the arrays of a complete rule up to END finds it, and finds it in the last entry. */
  lemma ArraysTerminated(T: Table, ws: seq<Token>)
    requires TableOk(T) && |ws| >= 2 && (ws[1].Validate? || ws[1].Create?)
    requires Run(T, Fresh(), ws).Some? && Complete(Run(T, Fresh(), ws).value)
    ensures var o := Run(T, Fresh(), ws).value.out; ItemsEnded(o) && ActionsEnded(o)
  {
    hide *;
    var s := Run(T, Fresh(), ws).value;
    FreshMeaning(T);
    RunMeaning(T, [], Fresh(), ws);
    assert [] + ws == ws;
    MeaningElim(T, ws, s);
    IsRule(ws, s.out);
    CompleteRule(T, s);
    NothingLeft(s.out);
  }

  lemma IsRule(ws: seq<Token>, o: Out)
    requires Recorded(ws, o) && (ws[1].Validate? || ws[1].Create?)
    ensures RuleCommand(o)
  {}

  // ---------------------------------------------------------------- the parameters of an item

  lemma ParamStep(T: Table, s: State, w: Token, u: State)
    requires w.ItemParam? && Call(T, s, w) == Some(u)
    ensures var n := s.dataSize / 3;
            && u.objmask == (if w.p.Is? then Some(s.out.data + 2 * n) else None)
            && u.obj == s.out.data + (match w.p case Is => 0 case Spec => 0 case Last => n case Mask => 2 * n case Prefix => 2 * n)
  {}

  /** The part of an item's data a parameter selects, as what follows `item field` says: `is` and `spec`
      fill the first third, `last` the second, `mask` and `prefix` the third; `is` also fills the mask
      with ones, the same bytes that `mask` would set. */
  lemma ParamSelectsThird(T: Table, s: State, p: Param)
    requires TableOk(T) && Reachable(T, s) && s.next != []
    requires s.next[|s.next| - 1].ItemParams? || s.next[|s.next| - 1].RawParams?
    requires Step(T, s, ItemParam(p)).Some?
    ensures s.next[0].FieldsOf? && s.next[0].i < |T.items| && s.out.blocks != []
    ensures var n, b, t := T.items[s.next[0].i].size, s.out.blocks[|s.out.blocks| - 1], Step(T, s, ItemParam(p)).value;
            && b.len == 3 * n
            && (p.Is? ==> t.obj == b.addr && t.objmask == Some(b.addr + 2 * n))
            && (p.Spec? ==> t.obj == b.addr && t.objmask == None)
            && (p.Last? ==> t.obj == b.addr + n && t.objmask == None)
            && (p.Mask? || p.Prefix? ==> t.obj == b.addr + 2 * n && t.objmask == None)
  {
    hide *;
    var w := ItemParam(p);
    ReachableInv(T, s);
    InvElim(T, s);
    var s', u := StepInversion(T, s, w);
    assert s' == s;
    PlacedItemHome(T, s);
    ParamBlock(T, s, s.next[0].i);
    ItemHomeRow(T, s, s.next[0].i);
    ParamStep(T, s, w, u);
  }

  lemma ItemHomeRow(T: Table, s: State, i: nat)
    requires ItemHome(T, s, i)
    ensures i < |T.items| && s.out.blocks != []
    ensures s.out.blocks[|s.out.blocks| - 1] == Block(s.out.data, 3 * T.items[i].size)
  {
    hide BufferSound;
  }

  // ---------------------------------------------------------------- the queues of an RSS action

  /** The counter in the upper half of objdata is in use only while a list of names or queues is. */
  predicate CounterAtRest(s: State) {
    s.next != [] && !s.next[|s.next| - 1].RssTypeList? && !s.next[|s.next| - 1].RssQueueList? ==> s.counter == 0
  }

  predicate Counts(w: Token) {
    w == RssType(false) || w == RssQueue(false)
  }

  lemma LeafCounter(T: Table, s: State, w: Token, u: State)
    requires InTable(T, w) && LeafToken(w) && Call(T, s, w) == Some(u) && (w.RssType? || w.RssQueue? || s.counter == 0)
    ensures !Counts(w) ==> u.counter == 0
    ensures w == RssType(false) ==> u.next == s.next + [RssTypeList]
    ensures w == RssQueue(false) ==> u.next == s.next + [RssQueueList]
  {
    hide TextOk, Supports;
  }

  lemma HomeCounter(T: Table, s: State, w: Token, u: State)
    requires InTable(T, w) && !LeafToken(w) && Call(T, s, w) == Some(u) && (w.Flow? || s.counter == 0)
    ensures u.counter == 0
  {
    hide Floor8, Ceil8, SlotAt, Grow;
  }

  lemma NoLeafCounts(w: Token)
    ensures !LeafToken(w) ==> !w.RssType? && !w.RssQueue? && !Counts(w)
  {}

  lemma CallCounter(T: Table, s: State, w: Token, u: State)
    requires InTable(T, w) && Call(T, s, w) == Some(u) && (w.RssType? || w.RssQueue? || w.Flow? || s.counter == 0)
    ensures !Counts(w) ==> u.counter == 0
    ensures w == RssType(false) ==> u.next == s.next + [RssTypeList]
    ensures w == RssQueue(false) ==> u.next == s.next + [RssQueueList]
  {
    hide Call, InTable;
    NoLeafCounts(w);
    if LeafToken(w) { LeafCounter(T, s, w, u); } else { HomeCounter(T, s, w, u); }
  }

  lemma CountingLists(T: Table, l: List, w: Token)
    requires Member(T, l, w)
    ensures w.RssType? <==> l.RssTypeList?
    ensures w.RssQueue? <==> l.RssQueueList?
    ensures l.FlowOnly? ==> w.Flow?
  {}

  lemma StepCounter(T: Table, s: State, w: Token)
    requires Step(T, s, w).Some? && CounterAtRest(s)
    ensures CounterAtRest(Step(T, s, w).value)
  {
    hide Call, Next, Args, Member, InTable, Step;
    var s', u := StepInversion(T, s, w);
    CountingLists(T, s'.next[|s'.next| - 1], w);
    CallCounter(T, s', w, u);
    if Counts(w) {
      LeafRowFacts(T, w);
      assert u.next[..|u.next| - 1] + [] == s'.next;
    }
  }

  lemma {:induction false} RunCounter(T: Table, s: State, ws: seq<Token>)
    requires Run(T, s, ws).Some? && CounterAtRest(s)
    ensures CounterAtRest(Run(T, s, ws).value)
    decreases |ws|
  {
    hide Step, CounterAtRest;
    if ws != [] {
      StepCounter(T, s, ws[0]);
      RunCounter(T, Step(T, s, ws[0]).value, ws[1..]);
    }
  }

  lemma ReachableCounter(T: Table, s: State)
    requires Reachable(T, s)
    ensures CounterAtRest(s)
  {
    var ws :| Run(T, Fresh(), ws) == Some(s);
    hide Run, Reachable;
    RunCounter(T, Fresh(), ws);
  }

  function Queues(n: nat): (ws: seq<Token>)
    ensures |ws| == n && forall k | 0 <= k < n :: ws[k] == RssQueue(false)
  {
    seq(n, _ => RssQueue(false))
  }

  /** A queue index where one is expected: it takes the next slot, of which there are 32. */
  lemma QueueStep(T: Table, s: State)
    requires s.next != [] && s.next[|s.next| - 1].RssQueueList? && |s.next| <= 3 && |s.args| <= 3
    ensures (Step(T, s, RssQueue(false))
             == if s.counter < RSS_QUEUE_NUM then Some(s.(counter := s.counter + 1)) else None)
  {
    if s.counter < RSS_QUEUE_NUM {
      assert (s.next + [RssQueueList])[..|s.next|] + [] == s.next && s.args + [] == s.args;
    }
  }

  lemma {:induction false} QueueRun(T: Table, s: State, n: nat)
    requires s.next != [] && s.next[|s.next| - 1].RssQueueList? && |s.next| <= 3 && |s.args| <= 3
    requires s.counter <= RSS_QUEUE_NUM
    ensures (Run(T, s, Queues(n))
             == if s.counter + n <= RSS_QUEUE_NUM then Some(s.(counter := s.counter + n)) else None)
    decreases n
  {
    hide Step;
    if n == 0 {
      assert s.(counter := s.counter + 0) == s;
    } else {
      QueueStep(T, s);
      assert Queues(n)[1..] == Queues(n - 1);
      if s.counter < RSS_QUEUE_NUM { QueueRun(T, s.(counter := s.counter + 1), n - 1); }
    }
  }

  lemma QueuesWord(T: Table, s: State)
    requires s.started && s.next == [RssFields] && s.args == []
    ensures (Step(T, s, RssQueues)
             == Some(s.(next := [RssFields, RssQueueList], obj := s.out.data, objmask := None)))
  {
    assert [RssFields][..0] + [RssFields, RssQueueList] == [RssFields, RssQueueList];
  }

  /** After `queues`, n indices are accepted if and only if there are at most 32 of them, and the
      counter, which numbers the slot of the next one, is then n. */
  lemma QueuesInOrder(T: Table, s: State, n: nat)
    requires TableOk(T) && Reachable(T, s) && s.next == [RssFields]
    ensures (Run(T, s, [RssQueues] + Queues(n))
             == if n <= RSS_QUEUE_NUM
                then Some(s.(next := [RssFields, RssQueueList], counter := n, obj := s.out.data, objmask := None))
                else None)
  {
    ReachableInv(T, s);
    ReachableCounter(T, s);
    InvElim(T, s);
    AtRest(s);
    RssFieldsBare(s);
    hide Reachable, Inv, Step, StacksOk, Placed, TableOk, CounterAtRest;
    var t := s.(next := [RssFields, RssQueueList], obj := s.out.data, objmask := None);
    QueuesWord(T, s);
    QueueRun(T, t, n);
    assert ([RssQueues] + Queues(n))[1..] == Queues(n);
  }

  lemma AtRest(s: State)
    requires CounterAtRest(s) && s.next == [RssFields]
    ensures s.counter == 0
  {}

  lemma RssFieldsBare(s: State)
    requires StacksOk(s.next, s.args) && s.next == [RssFields]
    ensures s.args == []
  {
    NothingElsePending(s.next, s.args);
  }

  // ---------------------------------------------------------------- numbers

  lemma FitsIsWhole(v: nat, a: Arg)
    requires !a.masked
    ensures NumberFits(v, a) <==> v % Pow2(8 * a.size) == v
  {
    hide Pow2;
    if v < Pow2(8 * a.size) { SmallMod(v, Pow2(8 * a.size)); }
  }

  /** A number is accepted if and only if its field can hold all of it. */
  lemma NumbersAreKeptWhole(T: Table, s: State, k: Kind, t: Input)
    requires TableOk(T) && Reachable(T, s) && s.next != [] && s.next[|s.next| - 1] == Value(k)
    requires IsNumber(k) && t.converts && s.args != [] && !s.args[|s.args| - 1].masked
    ensures Step(T, s, Val(k, t)).Some? <==> t.value % Pow2(8 * s.args[|s.args| - 1].size) == t.value
  {
    hide *;
    ValuesFindTheirDescriptors(T, s, k, t);
    FitsIsWhole(t.value, s.args[|s.args| - 1]);
    NumberTextOk(k, s.args, t);
  }

  lemma NumberTextOk(k: Kind, args: seq<Arg>, t: Input)
    requires IsNumber(k) && t.converts && args != []
    ensures |args| >= Pops(k) && (TextOk(k, args, t) <==> NumberFits(t.value, args[|args| - 1]))
  {
    hide NumberFits;
  }

  // ---------------------------------------------------------------- what is refused

  /** A slot of `size` bytes and `len` bytes of aligned data fit between the arrays and the data at a. */
  predicate FitsAt(o: Out, len: nat, size: nat, a: int) {
    a % 8 == 0 && a + len <= o.data && SlotAt(o) + size <= a
  }

  lemma FloorIsHighest(x: int, len: nat)
    ensures Floor8(x - len) % 8 == 0 && Floor8(x - len) + len <= x
    ensures forall a: int | a % 8 == 0 && a + len <= x :: a <= Floor8(x - len)
  {}

  function SlotSize(o: Out): nat {
    if o.actionsSet then ACTION_SIZE else ITEM_SIZE
  }

  lemma AllocateIff(T: Table, s: State, w: Token, len: nat)
    ensures Allocate(T, s, w, len).Some? <==> exists a :: FitsAt(s.out, len, SlotSize(s.out), a)
    ensures var r := Allocate(T, s, w, len);
            r.Some? ==>
              FitsAt(s.out, len, SlotSize(s.out), r.value.out.data)
              && forall a | FitsAt(s.out, len, SlotSize(s.out), a) :: a <= r.value.out.data
  {
    FloorIsHighest(s.out.data, len);
    hide Floor8, SlotAt;
    if Allocate(T, s, w, len).Some? {
      assert FitsAt(s.out, len, SlotSize(s.out), Floor8(s.out.data - len));
    }
  }

  lemma EntryStep(T: Table, s: State, w: Token)
    requires s.next != [] && |s.next| == 1 && s.args == [] && Member(T, s.next[0], w) && InTable(T, w) && Allocates(w)
    requires s.out.command.Some? && (w.Rss? ==> s.out.actionsSet)
    ensures Step(T, s, w).Some? <==> Allocate(T, s, w, EntrySize(T, w)).Some?
    ensures Step(T, s, w).Some? ==> Step(T, s, w).value.out == Allocate(T, s, w, EntrySize(T, w)).value.out
  {
    EntryAllocates(T, s, w);
    hide EntrySize, ParseVc, Member, Floor8, SlotAt;
  }

  lemma EntryHome(T: Table, s: State, w: Token)
    requires |s.next| == 1 && Placed(T, s, s.next) && Member(T, s.next[0], w) && Allocates(w)
    ensures s.out.command.Some? && (w.Rss? ==> s.out.actionsSet)
  {
    hide BufferSound;
  }

  lemma EntryListIsHome(T: Table, l: List, w: Token)
    requires Member(T, l, w) && Allocates(w)
    ensures !Leaf(l)
  {}

  /** A context accepts `flow` if and only if the buffer can hold its header. */
  lemma FlowAcceptedIff(T: Table)
    ensures Step(T, Fresh(), Flow).Some? <==> T.bufferSize <= T.size
  {}

  lemma TopStep(T: Table, s: State, w: Token)
    requires s.next == [Top] && s.args == [] && s.out == NoOut && T.bufferSize <= T.size
    requires Member(T, Top, w) && InTable(T, w)
    ensures Step(T, s, w).Some?
  {
    hide Ceil8;
  }

  lemma TopFacts(T: Table, s: State)
    requires s.next == [Top] && Placed(T, s, s.next)
    ensures s.out == NoOut && T.bufferSize <= T.size && !Leaf(Top)
  {}

  /** After `flow` no command is refused. */
  lemma CommandsAccepted(T: Table, s: State, w: Token)
    requires TableOk(T) && Reachable(T, s) && s.next == [Top] && Member(T, Top, w) && InTable(T, w)
    ensures Step(T, s, w).Some?
  {
    hide *;
    ReachableInv(T, s);
    InvElim(T, s);
    TopFacts(T, s);
    NothingElsePending(s.next, s.args);
    TopStep(T, s, w);
  }

  /** An item or action where one is expected is refused only when there is no aligned place for its
      data that leaves the array room for one more entry; otherwise it gets the highest such place. */
  lemma EntryAcceptedIff(T: Table, s: State, w: Token)
    requires TableOk(T) && Reachable(T, s) && s.next != []
    requires InTable(T, w) && Member(T, s.next[|s.next| - 1], w) && Allocates(w)
    ensures Step(T, s, w).Some? <==> exists a :: FitsAt(s.out, EntrySize(T, w), SlotSize(s.out), a)
    ensures Step(T, s, w).Some? ==>
              var data := Step(T, s, w).value.out.data;
              FitsAt(s.out, EntrySize(T, w), SlotSize(s.out), data)
              && forall a | FitsAt(s.out, EntrySize(T, w), SlotSize(s.out), a) :: a <= data
  {
    hide *;
    ReachableInv(T, s);
    InvElim(T, s);
    EntryListIsHome(T, s.next[|s.next| - 1], w);
    NothingElsePending(s.next, s.args);
    EntryHome(T, s, w);
    EntryStep(T, s, w);
    AllocateIff(T, s, w, EntrySize(T, w));
  }

  lemma IdStep(T: Table, s: State, w: Token)
    requires |s.next| == 1 && s.args == [] && Member(T, s.next[0], w) && IdWord(w) && s.out.command.Some?
    ensures Step(T, s, w).Some? <==> s.out.ids + ID_SIZE * (s.out.idN + 1) <= T.base + T.size
    ensures Step(T, s, w).Some? ==> Step(T, s, w).value.obj == s.out.ids + ID_SIZE * s.out.idN
  {
    hide Member;
  }

  lemma IdHome(T: Table, s: State, w: Token)
    requires |s.next| == 1 && Placed(T, s, s.next) && Member(T, s.next[0], w) && IdWord(w)
    ensures s.out.command.Some? && s.out.ids == Ceil8(T.base + T.bufferSize)
  {
    hide Ceil8;
  }

  lemma IdListIsHome(T: Table, l: List, w: Token)
    requires Member(T, l, w) && IdWord(w)
    ensures !Leaf(l)
  {}

  /** An identifier where one is expected is refused only when its slot would end behind the buffer;
      otherwise it goes to the slot of its number. */
  lemma IdAcceptedIff(T: Table, s: State, w: Token)
    requires TableOk(T) && Reachable(T, s) && s.next != [] && Member(T, s.next[|s.next| - 1], w) && IdWord(w)
    ensures s.out.ids == Ceil8(T.base + T.bufferSize)
    ensures Step(T, s, w).Some? <==> s.out.ids + ID_SIZE * (s.out.idN + 1) <= T.base + T.size
    ensures Step(T, s, w).Some? ==> Step(T, s, w).value.obj == s.out.ids + ID_SIZE * s.out.idN
  {
    hide *;
    ReachableInv(T, s);
    InvElim(T, s);
    IdListIsHome(T, s.next[|s.next| - 1], w);
    NothingElsePending(s.next, s.args);
    IdHome(T, s, w);
    IdStep(T, s, w);
  }

  lemma StringTextOk(args: seq<Arg>, t: Input)
    requires |args| >= Pops(Text) && t.converts && NumberFits(t.len, args[|args| - 2])
    ensures TextOk(Text, args, t) <==> t.len <= args[|args| - 1].size
  {
    hide NumberFits;
  }

  /** A string is accepted if and only if the copy of it, with the rest of the field cleared, ends where
      the field does. */
  lemma StringsAcceptedIffInside(T: Table, s: State, t: Input)
    requires TableOk(T) && Reachable(T, s) && s.next != [] && s.next[|s.next| - 1] == Value(Text)
    requires t.converts && t.len < U32 && |s.args| >= 2 && NumberFits(t.len, s.args[|s.args| - 2])
    ensures Step(T, s, Val(Text, t)).Some? <==> CopyReach(t.len, s.args[|s.args| - 1].size) == s.args[|s.args| - 1].size
  {
    hide *;
    ValuesFindTheirDescriptors(T, s, Text, t);
    FeedsArgs(Text, s.args);
    StringTextOk(s.args, t);
    FieldIsSmall(T, s, Text);
    ReachIs(t.len, s.args[|s.args| - 1].size);
    WholeIs(s.args[|s.args| - 1]);
  }

  lemma FieldIsSmall(T: Table, s: State, k: Kind)
    requires TableOk(T) && Reachable(T, s) && s.next != [] && s.next[|s.next| - 1] == Value(k) && s.args != []
    ensures s.args[|s.args| - 1].size < U32
  {
    hide *;
    var data := s.args[|s.args| - 1];
    ReachableInv(T, s);
    InvElim(T, s);
    DescriptorInside(T, s, k, data);
    WholeIs(data);
    WriteIsSmall(T, s, Whole(data), Whole(data));
  }
}
