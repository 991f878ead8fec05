/** A token table of real rows of test-pmd/cmdline_flow.c, and a command it accepts. */
module FlowSample {
  import opened FlowParser
  import opened Numbers
  import opened Wrappers

  // Rows of token_list with the sizes of a 64-bit build.
  const AnyRow := Row(4, [Field(Unsigned, [Arg(0, 4, false, false)])])
  const EthRow := Row(14, [Field(MacAddr, [Arg(0, 6, true, false)]), Field(MacAddr, [Arg(6, 6, true, false)]),
                           Field(Unsigned, [Arg(12, 2, true, false)])])
  const VlanRow := Row(4, [Field(Unsigned, [Arg(0, 2, true, false)]), Field(Unsigned, [Arg(0, 2, true, true)])])
  const RawRow := Row(24 + 40, [Field(Boolean, [Arg(0, 24, false, true)]), Field(Integer, [Arg(4, 4, false, false)]),
                                Field(Text, [Arg(16, 8, false, false), Arg(10, 2, false, false), Arg(24, 40, false, false)])])
  const QueueRow := Row(2, [Field(Unsigned, [Arg(0, 2, false, false)])])
  const CountRow := Row(8, [Field(Unsigned, [Arg(4, 4, false, false)]), Field(Boolean, [Arg(0, 8, false, true)])])

  function SampleTable(base: nat, size: nat): Table {
    Table([AnyRow, EthRow, VlanRow, RawRow], [QueueRow, CountRow],
          168, Arg(4, 4, false, false), Arg(16, 4, false, false),
          [Arg(0, 0, false, false), Arg(16, 4, false, false), Arg(40, 64, false, false)], 104,
          56, Arg(4, 2, false, false), 8, Arg(0, 4, false, false), Arg(4, 4, false, false),
          Arg(16, 4, false, false), Arg(8, 4, false, false), Arg(8, 4, false, false),
          base, size)
  }

  lemma FieldsOfRowOk(r: Row)
    requires 3 * r.size < U32
    requires forall k | 0 <= k < |r.fields| :: FieldOk(r.fields[k], r.size)
    ensures RowOk(r)
  {}

  lemma SampleItemsOk()
    ensures RowOk(AnyRow) && RowOk(EthRow) && RowOk(VlanRow)
  {
    FieldsOfRowOk(AnyRow);
    FieldsOfRowOk(EthRow);
    FieldsOfRowOk(VlanRow);
  }

  lemma SampleRawOk()
    ensures RowOk(RawRow) && RowOk(QueueRow) && RowOk(CountRow)
  {
    FieldsOfRowOk(RawRow);
    FieldsOfRowOk(QueueRow);
    FieldsOfRowOk(CountRow);
  }

  lemma IntFieldOk(k: Kind, a: Arg, size: nat)
    requires k.Unsigned? || k.PortId? || k.ActionName? || k.RuleId? || k.Boolean? || k.GroupId? || k.Level?
    requires a.size == 2 || a.size == 4
    requires a.offset + a.size <= size
    ensures FieldOk(Field(k, [a]), size)
  {}

  lemma SampleKeyOk()
    ensures FieldOk(Field(Hex, [Arg(0, 0, false, false), Arg(16, 4, false, false), Arg(40, 64, false, false)]), 168)
  {}

  /** The hypothesis on tables is met by the real rows. */
  lemma SampleTableOk(base: nat, size: nat)
    requires size < U32
    ensures TableOk(SampleTable(base, size))
  {
    hide RowOk, FieldOk, IntSize, Supports;
    SampleItemsOk();
    SampleRawOk();
    SampleKeyOk();
    IntFieldOk(Unsigned, Arg(4, 4, false, false), 168);
    IntFieldOk(Unsigned, Arg(16, 4, false, false), 168);
    IntFieldOk(PortId, Arg(4, 2, false, false), 56);
    IntFieldOk(ActionName, Arg(16, 4, false, false), 56);
    IntFieldOk(RuleId, Arg(8, 4, false, false), 56);
    IntFieldOk(Boolean, Arg(8, 4, false, false), 56);
    IntFieldOk(GroupId, Arg(0, 4, false, false), 56 - 8);
    IntFieldOk(Level, Arg(4, 4, false, false), 56 - 8);
  }

  // ---------------------------------------------------------------- a command with an RSS key

  // flow create 1 pattern end actions rss key, word by word, in a buffer of 4096 bytes.
  const Small := SampleTable(0, 4096)
  const PortOne := Val(PortId, Input(1, true, 1))

  const OutCreate := NoOut.(command := Some(Create), ids := 56, data := 4096)
  const OutPattern := OutCreate.(patternSet := true, pattern := 56)
  const OutEnd := OutPattern.(items := [ItemSlot(ItemEnd, None, None, None)], blocks := [Block(4096, 0)])
  const OutActions := OutEnd.(actionsSet := true, actions := 88)
  const OutRss := OutActions.(acts := [ActionSlot(Rss, Some(3928))], data := 3928, blocks := [Block(4096, 0), Block(3928, 168)])

  const AtFlow := State(true, [Top], [], 0, 0, 0, None, NoOut)
  const AtCreate := State(true, [VcAttrs, Value(PortId)], [Arg(4, 2, false, false)], 0, 0, 0, None, OutCreate)
  const AtPort := AtCreate.(next := [VcAttrs], args := [])
  const AtPattern := State(true, [NextItem], [], 0, 0, 56, None, OutPattern)
  const AtEnd := State(true, [JustActions], [], 0, 0, 56, None, OutEnd)
  const AtActions := State(true, [NextAction], [], 0, 0, 88, None, OutActions)
  const AtRss := State(true, [RssFields], [], 168, 0, 3928, None, OutRss)
  const AtKey := AtRss.(next := [RssFields, Value(Hex)], args := [Arg(0, 0, false, false), Arg(16, 4, false, false), Arg(40, 64, false, false)])

  /** A word of a bottom list: its call, then its row. */
  lemma HomeStep(T: Table, s: State, w: Token, u: State)
    requires s.started && |s.next| == 1 && s.args == [] && InTable(T, w) && Member(T, s.next[0], w)
    requires Call(T, s, w) == Some(u) && u.next == s.next && u.args == []
    requires |Next(T, w)| <= CTX_STACK_SIZE && |Args(T, w)| <= CTX_STACK_SIZE
    ensures Step(T, s, w) == Some(u.(next := Next(T, w), args := Args(T, w)))
  {
    hide Call, Next, Args, Member, InTable;
    assert u.next[..0] + Next(T, w) == Next(T, w) && u.args + Args(T, w) == Args(T, w);
  }

  /** What the steps below need of the table. */
  predicate Sized(T: Table) {
    && T.base == 0 && T.size == 4096 && T.bufferSize == 56 && T.rssSize == 168
    && T.port == Arg(4, 2, false, false)
    && T.rssKey == [Arg(0, 0, false, false), Arg(16, 4, false, false), Arg(40, 64, false, false)]
  }

  lemma FlowStep(T: Table)
    requires Sized(T)
    ensures Step(T, Fresh(), Flow) == Some(AtFlow)
  {
    var s := Fresh().(started := true, next := [FlowOnly]);
    HomeStep(T, s, Flow, s);
    assert Step(T, Fresh(), Flow) == Step(T, s, Flow);
  }

  lemma CreateStep(T: Table)
    requires Sized(T)
    ensures Step(T, AtFlow, Create) == Some(AtCreate)
  {
    assert Ceil8(56) == 56;
    var u := AtFlow.(out := OutCreate);
    assert StartCommand(T, AtFlow, Create) == Some(u);
    HomeStep(T, AtFlow, Create, u);
  }

  lemma PortFits()
    ensures NumberFits(1, Arg(4, 2, false, false))
  {
    Pow2Monotone(1, 16);
    assert Pow2(1) == 2;
  }

  lemma PortStep(T: Table)
    requires Sized(T)
    ensures Step(T, AtCreate, PortOne) == Some(AtPort)
  {
    PortFits();
    hide NumberFits;
    assert TextOk(PortId, AtCreate.args, PortOne.text);
    assert ParseValue(AtCreate, PortId, PortOne.text) == Some(AtCreate.(args := []));
    assert AtCreate.next[..1] == [VcAttrs] && [VcAttrs] + [] == [VcAttrs];
  }

  lemma PatternCall(T: Table, s: State)
    requires s.out.command.Some?
    ensures (Call(T, s, Pattern)
             == var p := Ceil8(T.base + T.bufferSize); Some(PointAt(s, p).(out := s.out.(patternSet := true, pattern := p))))
  {
    hide Ceil8;
  }

  lemma PatternStepIs(T: Table, s: State)
    requires s.started && s.next == [VcAttrs] && s.args == [] && s.out.command.Some?
    ensures (Step(T, s, Pattern)
             == var p := Ceil8(T.base + T.bufferSize);
                Some(PointAt(s, p).(out := s.out.(patternSet := true, pattern := p), next := [NextItem])))
  {
    PatternCall(T, s);
    hide Call, Step, Ceil8;
    HomeStep(T, s, Pattern, Call(T, s, Pattern).value);
  }

  lemma PatternStep(T: Table)
    requires Sized(T)
    ensures Step(T, AtPort, Pattern) == Some(AtPattern)
  {
    assert Ceil8(56) == 56;
    PatternStepIs(T, AtPort);
    hide Step, Ceil8;
  }

  lemma EndCall(T: Table, s: State)
    requires s.out.command.Some?
    ensures Call(T, s, ItemEnd) == Allocate(T, s, ItemEnd, 0)
  {
    hide Allocate;
  }

  lemma EndStepIs(T: Table, s: State, u: State)
    requires s.started && s.next == [NextItem] && s.args == [] && s.out.command.Some?
    requires Allocate(T, s, ItemEnd, 0) == Some(u) && u.next == s.next && u.args == []
    ensures Step(T, s, ItemEnd) == Some(u.(next := [JustActions]))
  {
    EndCall(T, s);
    hide Call, Step, Allocate;
    HomeStep(T, s, ItemEnd, u);
  }

  lemma EndAllocates(T: Table)
    requires Sized(T)
    ensures Allocate(T, AtPattern, ItemEnd, 0) == Some(AtEnd.(next := [NextItem]))
  {
    assert Floor8(4096) == 4096;
    hide Floor8;
    assert AtEnd.out.blocks == [] + [Block(4096, 0)];
    assert AtEnd.out.items == [] + [ItemSlot(ItemEnd, None, None, None)];
  }

  lemma EndStep(T: Table)
    requires Sized(T)
    ensures Step(T, AtPattern, ItemEnd) == Some(AtEnd)
  {
    EndAllocates(T);
    hide Step, Allocate;
    EndStepIs(T, AtPattern, AtEnd.(next := [NextItem]));
  }

  lemma ActionsCall(T: Table, s: State)
    requires s.out.command.Some?
    ensures (Call(T, s, Actions)
             == var a := Ceil8(s.out.pattern + ITEM_SIZE * |s.out.items|);
                Some(PointAt(s, a).(out := s.out.(actionsSet := true, actions := a))))
  {
    hide Ceil8;
  }

  lemma ActionsStepIs(T: Table, s: State)
    requires s.started && s.next == [JustActions] && s.args == [] && s.out.command.Some?
    ensures (Step(T, s, Actions)
             == var a := Ceil8(s.out.pattern + ITEM_SIZE * |s.out.items|);
                Some(PointAt(s, a).(out := s.out.(actionsSet := true, actions := a), next := [NextAction])))
  {
    ActionsCall(T, s);
    hide Call, Step, Ceil8;
    HomeStep(T, s, Actions, Call(T, s, Actions).value);
  }

  lemma ActionsStep(T: Table)
    requires Sized(T)
    ensures Step(T, AtEnd, Actions) == Some(AtActions)
  {
    assert Ceil8(88) == 88;
    ActionsStepIs(T, AtEnd);
    hide Step, Ceil8;
  }

  lemma RssCall(T: Table, s: State, u: State)
    requires s.out.command.Some? && Allocate(T, s, Rss, T.rssSize) == Some(u) && |u.out.acts| > 0
    ensures Call(T, s, Rss) == Some(u.(obj := u.out.data, objmask := None))
  {
    hide Allocate;
  }

  lemma RssStepIs(T: Table, s: State, u: State)
    requires s.started && s.next == [NextAction] && s.args == [] && s.out.command.Some?
    requires Allocate(T, s, Rss, T.rssSize) == Some(u) && |u.out.acts| > 0 && u.next == s.next && u.args == []
    ensures Step(T, s, Rss) == Some(u.(obj := u.out.data, objmask := None, next := [RssFields]))
  {
    RssCall(T, s, u);
    hide Call, Step, Allocate;
    HomeStep(T, s, Rss, u.(obj := u.out.data, objmask := None));
  }

  lemma RssAllocates(T: Table)
    requires Sized(T)
    ensures Allocate(T, AtActions, Rss, 168) == Some(AtRss.(next := [NextAction], obj := 88))
  {
    assert Floor8(3928) == 3928;
    hide Floor8;
    assert AtRss.out.blocks == [Block(4096, 0)] + [Block(3928, 168)];
    assert AtRss.out.acts == [] + [ActionSlot(Rss, Some(3928))];
  }

  lemma RssStep(T: Table)
    requires Sized(T)
    ensures Step(T, AtActions, Rss) == Some(AtRss)
  {
    RssAllocates(T);
    hide Step, Allocate;
    RssStepIs(T, AtActions, AtRss.(next := [NextAction], obj := 88));
  }

  lemma KeyStep(T: Table)
    requires Sized(T)
    ensures Step(T, AtRss, RssKey) == Some(AtKey)
  {
    HomeStep(T, AtRss, RssKey, AtRss);
  }

  lemma RunFrom(T: Table, s: State, w: Token, t: State, ws: seq<Token>)
    requires Step(T, s, w) == Some(t)
    ensures Run(T, s, [w] + ws) == Run(T, t, ws)
  {
    hide Step;
    assert ([w] + ws)[1..] == ws;
  }

  /** The state in which the key is expected can be reached. */
  lemma KeyIsReached()
    ensures Reachable(Small, AtKey)
  {
    assert Sized(Small);
    FlowStep(Small);
    CreateStep(Small);
    PortStep(Small);
    PatternStep(Small);
    EndStep(Small);
    ActionsStep(Small);
    RssStep(Small);
    KeyStep(Small);
    NothingRuns();
    hide *;
    RunFrom(Small, AtRss, RssKey, AtKey, []);
    RunFrom(Small, AtActions, Rss, AtRss, [RssKey] + []);
    RunFrom(Small, AtEnd, Actions, AtActions, [Rss] + ([RssKey] + []));
    RunFrom(Small, AtPattern, ItemEnd, AtEnd, [Actions] + ([Rss] + ([RssKey] + [])));
    RunFrom(Small, AtPort, Pattern, AtPattern, [ItemEnd] + ([Actions] + ([Rss] + ([RssKey] + []))));
    RunFrom(Small, AtCreate, PortOne, AtPort, [Pattern] + ([ItemEnd] + ([Actions] + ([Rss] + ([RssKey] + [])))));
    RunFrom(Small, AtFlow, Create, AtCreate,
            [PortOne] + ([Pattern] + ([ItemEnd] + ([Actions] + ([Rss] + ([RssKey] + []))))));
    RunFrom(Small, Fresh(), Flow, AtFlow,
            [Create] + ([PortOne] + ([Pattern] + ([ItemEnd] + ([Actions] + ([Rss] + ([RssKey] + [])))))));
    IsReachable(Small, AtKey,
                [Flow] + ([Create] + ([PortOne] + ([Pattern] + ([ItemEnd] + ([Actions] + ([Rss] + ([RssKey] + []))))))));
  }

  lemma NothingRuns()
    ensures Run(Small, AtKey, []) == Some(AtKey)
  {}

  lemma IsReachable(T: Table, s: State, ws: seq<Token>)
    requires Run(T, Fresh(), ws) == Some(s)
    ensures Reachable(T, s)
  {}

  /** A key of n hex digits after this command. */
  function KeyDigits(n: nat): Token {
    Val(Hex, Input(n, true, 0))
  }

  lemma KeyText(n: nat)
    ensures TextOk(Hex, AtKey.args, KeyDigits(n).text) <==> 1 <= n <= 256
    ensures AtKey.next[|AtKey.next| - 1] == Value(Hex) && |AtKey.args| == 3 && AtKey.args[2].size == 64
  {
    if 1 <= n <= 256 {
      Pow2Monotone(8, 32);
      assert Pow2(8) == 256;
      hide Pow2;
    }
  }

  /** 130 digits make 65 bytes, one more than the key has: they are accepted, and what they make the
      parser write leaves the action's configuration.  Up to 128 digits stay inside, and from 257 on
      the text is refused. */
  lemma OversizedKey(n: nat)
    ensures Reachable(Small, AtKey)
    ensures Step(Small, AtKey, KeyDigits(n)).Some? <==> 1 <= n <= 256
    ensures |AtKey.args| >= Pops(Hex)
    ensures 1 <= n <= 256 ==> (WritesInside(Small, AtKey, Hex, KeyDigits(n).text) <==> n <= 128)
    ensures Step(Small, AtKey, KeyDigits(130)).Some? && !WritesInside(Small, AtKey, Hex, KeyDigits(130).text)
  {
    KeyIsReached();
    SampleTableOk(0, 4096);
    KeyInside(n);
    KeyInside(130);
  }

  lemma KeyInside(n: nat)
    requires Reachable(Small, AtKey) && TableOk(Small)
    ensures Step(Small, AtKey, KeyDigits(n)).Some? <==> 1 <= n <= 256
    ensures |AtKey.args| >= Pops(Hex)
    ensures 1 <= n <= 256 ==> (WritesInside(Small, AtKey, Hex, KeyDigits(n).text) <==> n <= 128)
  {
    KeyText(n);
    hide Reachable, TableOk, Step, WritesInside, TextOk;
    ValuesFindTheirDescriptors(Small, AtKey, Hex, KeyDigits(n).text);
    if 1 <= n <= 256 {
      WritesStayInObject(Small, AtKey, Hex, KeyDigits(n).text);
    }
  }
}
