/** The flow-rule parser of test-pmd/cmdline_flow.c.

  cmd_flow_parse is a table-driven pushdown machine: one stack of pending token lists, one
  of pending argument descriptors, 16 slots each, and an output buffer filled from both
  ends.  The token table is a parameter: each row of the source table is one of the token
  shapes below, with its own descriptors and sizes.
 */
module FlowParser {
  import opened Numbers
  import opened Wrappers

  // ---------------------------------------------------------------- the token table

  /** Value tokens, by the routine that parses them. */
  datatype Kind =
    | Integer | Unsigned | PrefixLength | Boolean | Text | Hex | MacAddr | Ipv4Addr | Ipv6Addr
    | RuleId | PortId | GroupId | Level | ActionName

  /** struct arg; masked stands for a bit-mask instead of offset and size. */
  datatype Arg = Arg(offset: nat, size: nat, hton: bool, masked: bool)

  /** A field of an item or an action: the value it takes and the descriptors it pushes. */
  datatype Field = Field(kind: Kind, args: seq<Arg>)

  /** An item or action: size of its specification and its fields. */
  datatype Row = Row(size: nat, fields: seq<Field>)

  datatype Table = Table(
    items: seq<Row>, actions: seq<Row>,
    rssSize: nat, rssLevel: Arg, rssKeyLen: Arg, rssKey: seq<Arg>, rssQueues: nat,
    bufferSize: nat, port: Arg, attrOffset: nat, group: Arg, priority: Arg,
    queryType: Arg, queryRule: Arg, isolateSet: Arg,
    base: nat, size: nat)

  const CTX_STACK_SIZE := 16
  const ITEM_SIZE := 32
  const ACTION_SIZE := 16
  const RSS_QUEUE_NUM := 32
  const QUEUE_SIZE := 2
  const ID_SIZE := 4
  const HEX_DIGITS := 256

  /** Descriptors the value parser pops. */
  function Pops(k: Kind): nat {
    if k.Text? || k.Hex? then 3 else 1
  }

  predicate IntSize(a: Arg) {
    a.masked || a.size in {1, 2, 3, 4, 8}
  }

  /** Top of the stack first, as the parser pops: the descriptors a kind can work with. */
  predicate Supports(k: Kind, data: Arg) {
    match k
    case MacAddr => !data.masked && data.hton && data.size == 6
    case Ipv4Addr => !data.masked && data.hton && data.size == 4
    case Ipv6Addr => !data.masked && data.hton && data.size == 16
    case Text | Hex => !data.masked
    case PrefixLength | ActionName => true
    case _ => IntSize(data)
  }

  predicate FieldOk(f: Field, size: nat) {
    && |f.args| == Pops(f.kind)
    && (forall a | a in f.args :: a.offset + a.size <= size)
    && Supports(f.kind, f.args[|f.args| - 1])
    && (Pops(f.kind) == 3 ==> IntSize(f.args[1]) && !f.args[0].masked)
    && f.kind != PrefixLength
  }

  predicate RowOk(r: Row) {
    3 * r.size < U32 && forall f | f in r.fields :: FieldOk(f, r.size)
  }

  /** What the C definitions of the table guarantee: descriptors come from offsetof and
      sizeof of the structure they belong to, their sizes suit the value token, and sizes are
      32-bit numbers. */
  predicate TableOk(T: Table) {
    && (forall r | r in T.items :: RowOk(r))
    && (forall r | r in T.actions :: RowOk(r))
    && FieldOk(Field(Unsigned, [T.rssLevel]), T.rssSize)
    && FieldOk(Field(Unsigned, [T.rssKeyLen]), T.rssSize)
    && FieldOk(Field(Hex, T.rssKey), T.rssSize)
    && T.rssQueues + QUEUE_SIZE * RSS_QUEUE_NUM <= T.rssSize
    && FieldOk(Field(PortId, [T.port]), T.bufferSize)
    && FieldOk(Field(ActionName, [T.queryType]), T.bufferSize)
    && FieldOk(Field(RuleId, [T.queryRule]), T.bufferSize)
    && FieldOk(Field(Boolean, [T.isolateSet]), T.bufferSize)
    && T.attrOffset <= T.bufferSize && T.bufferSize < U32 && T.size < U32 && T.rssSize < U32
    && FieldOk(Field(GroupId, [T.group]), T.bufferSize - T.attrOffset)
    && FieldOk(Field(Level, [T.priority]), T.bufferSize - T.attrOffset)
  }

  /** The arrays of candidate tokens the stack entries point to. */
  datatype List =
    | FlowOnly | Top | VcAttrs | DestroyAttrs | JustDestroyRule | ListAttrs
    | ItemParams | RawParams | NextItem | FieldsOf(i: nat) | JustActions
    | NextAction | ActionFieldsOf(a: nat)
    | RssFields | RssFuncs | RssTypeList | RssQueueList
    | Value(kind: Kind)

  datatype Param = Is | Spec | Last | Mask | Prefix

  /** The text of a value: its length, for hex digits without a 0x in front; whether it converts to
      a value of its kind within the bounds its descriptor states; and for numbers the value, as
      an unsigned 64-bit number. */
  datatype Input = Input(len: nat, converts: bool, value: nat)

  /** Words of a command, by the token they match. */
  datatype Token =
    | Flow | Validate | Create | Destroy | Flush | Query | ListRules | Isolate
    | DestroyRule | ListGroup
    | Group | Priority | Ingress | Egress | Transfer
    | Pattern | ItemParam(p: Param) | ItemNext | ItemEnd | Item(i: nat) | ItemField(i: nat, f: nat)
    | Actions | ActionNext | ActionEnd | Action(a: nat) | ActionField(a: nat, f: nat)
    | Rss | RssFunc | RssFuncName | RssLevel | RssKeyLen | RssKey
    | RssTypes | RssType(end: bool) | RssQueues | RssQueue(end: bool)
    | Val(kind: Kind, text: Input)

  /** Whether a token is among the candidates of a list. */
  predicate Member(T: Table, l: List, w: Token) {
    match l
    case FlowOnly => w.Flow?
    case Top => w.Validate? || w.Create? || w.Destroy? || w.Flush? || w.ListRules? || w.Query? || w.Isolate?
    case VcAttrs => w.Group? || w.Priority? || w.Ingress? || w.Egress? || w.Transfer? || w.Pattern?
    case DestroyAttrs => w.DestroyRule?
    case JustDestroyRule => w.DestroyRule?
    case ListAttrs => w.ListGroup?
    case ItemParams => w.ItemParam?
    case RawParams => w == ItemParam(Is) || w == ItemParam(Spec) || w == ItemParam(Mask)
    case NextItem => w.ItemEnd? || (w.Item? && w.i < |T.items|)
    case FieldsOf(i) =>
      w.ItemNext? || (i < |T.items| && w.ItemField? && w.i == i && w.f < |T.items[i].fields|)
    case JustActions => w.Actions?
    case NextAction => w.ActionEnd? || w.Rss? || (w.Action? && w.a < |T.actions|)
    case ActionFieldsOf(a) =>
      w.ActionNext? || (a < |T.actions| && w.ActionField? && w.a == a && w.f < |T.actions[a].fields|)
    case RssFields =>
      w.RssFunc? || w.RssLevel? || w.RssTypes? || w.RssKey? || w.RssKeyLen? || w.RssQueues? || w.ActionNext?
    case RssFuncs => w.RssFuncName?
    case RssTypeList => w.RssType?
    case RssQueueList => w.RssQueue?
    case Value(k) => w.Val? && w.kind == k
  }

  /** END among the candidates: the command may stop here. */
  predicate MayEnd(l: List) {
    l.DestroyAttrs? || l.ListAttrs?
  }

  predicate InTable(T: Table, w: Token) {
    && (w.Item? ==> w.i < |T.items|)
    && (w.ItemField? ==> w.i < |T.items| && w.f < |T.items[w.i].fields|)
    && (w.Action? ==> w.a < |T.actions|)
    && (w.ActionField? ==> w.a < |T.actions| && w.f < |T.actions[w.a].fields|)
  }

  /** Column .next of the table; the last list is the first to be consulted. */
  function Next(T: Table, w: Token): seq<List>
    requires InTable(T, w)
  {
    match w
    case Flow => [Top]
    case Validate | Create => [VcAttrs, Value(PortId)]
    case Destroy => [JustDestroyRule, Value(PortId)]
    case Flush => [Value(PortId)]
    case Query => [Value(ActionName), Value(RuleId), Value(PortId)]
    case ListRules => [ListAttrs, Value(PortId)]
    case Isolate => [Value(Boolean), Value(PortId)]
    case DestroyRule => [DestroyAttrs, Value(RuleId)]
    case ListGroup => [ListAttrs, Value(GroupId)]
    case Group => [VcAttrs, Value(GroupId)]
    case Priority => [VcAttrs, Value(Level)]
    case Ingress | Egress | Transfer => [VcAttrs]
    case Pattern => [NextItem]
    case ItemParam(_) => []
    case ItemNext => [NextItem]
    case ItemEnd => [JustActions]
    case Item(i) => [FieldsOf(i)]
    case ItemField(i, f) =>
      var k := T.items[i].fields[f].kind;
      [FieldsOf(i), Value(k), if Pops(k) == 3 then RawParams else ItemParams]
    case Actions => [NextAction]
    case ActionNext => [NextAction]
    case ActionEnd => []
    case Action(a) => [ActionFieldsOf(a)]
    case ActionField(a, f) => [ActionFieldsOf(a), Value(T.actions[a].fields[f].kind)]
    case Rss => [RssFields]
    case RssFunc => [RssFields, RssFuncs]
    case RssFuncName => []
    case RssLevel | RssKeyLen => [RssFields, Value(Unsigned)]
    case RssKey => [RssFields, Value(Hex)]
    case RssTypes => [RssFields, RssTypeList]
    case RssType(_) => []
    case RssQueues => [RssFields, RssQueueList]
    case RssQueue(_) => []
    case Val(_, _) => []
  }

  const IdArg := Arg(0, ID_SIZE, false, false)

  /** Column .args of the table; the last descriptor is popped first. */
  function Args(T: Table, w: Token): seq<Arg>
    requires InTable(T, w)
  {
    match w
    case Validate | Create | Destroy | Flush | ListRules => [T.port]
    case Query => [T.queryType, T.queryRule, T.port]
    case Isolate => [T.isolateSet, T.port]
    case DestroyRule | ListGroup => [IdArg]
    case Group => [T.group]
    case Priority => [T.priority]
    case ItemField(i, f) => T.items[i].fields[f].args
    case ActionField(a, f) => T.actions[a].fields[f].args
    case RssLevel => [T.rssLevel]
    case RssKeyLen => [T.rssKeyLen]
    case RssKey => T.rssKey
    case _ => []
  }

  // ---------------------------------------------------------------- the machine

  datatype Block = Block(addr: int, len: nat)

  /** struct rte_flow_item and struct rte_flow_action in the arrays of the buffer: the word they
      were made for and their pointers, None for NULL. */
  datatype ItemSlot = ItemSlot(kind: Token, spec: Option<int>, last: Option<int>, mask: Option<int>)
  datatype ActionSlot = ActionSlot(kind: Token, conf: Option<int>)

  /** struct buffer.  Addresses are numbers; patternSet and actionsSet stand for non-null
      pointers, items and acts for the two arrays up to their counts.  blocks lists the data
      blocks handed out so far. */
  datatype Out = Out(
    command: Option<Token>,
    ingress: bool, egress: bool, transfer: bool,
    patternSet: bool, pattern: int, items: seq<ItemSlot>,
    actionsSet: bool, actions: int, acts: seq<ActionSlot>,
    data: int, blocks: seq<Block>, ids: int, idN: nat)

  /** struct context.  objdata is split into its low half, the data size, and its high half,
      the RSS counter; objmask is None for NULL. */
  datatype State = State(
    started: bool, next: seq<List>, args: seq<Arg>,
    dataSize: nat, counter: nat, obj: int, objmask: Option<int>, out: Out)

  function Floor8(x: int): int { x - x % 8 }
  function Ceil8(x: int): int { Floor8(x + 7) }

  const NoOut := Out(None, false, false, false, false, 0, [], false, 0, [], 0, [], 0, 0)

  function Fresh(): State {
    State(false, [], [], 0, 0, 0, None, NoOut)
  }

  function PointAt(s: State, obj: int): State {
    s.(dataSize := 0, counter := 0, obj := obj, objmask := None)
  }

  /** A command word on a fresh buffer. */
  function StartCommand(T: Table, s: State, w: Token): Option<State> {
    if s.out.command.Some? || T.bufferSize > T.size then None
    else Some(PointAt(s, T.base).(out := s.out.(command := Some(w), ids := Ceil8(T.base + T.bufferSize),
                                                data := T.base + T.size)))
  }

  /** The next free slot of the array that is being filled. */
  function SlotAt(o: Out): int {
    if o.actionsSet then o.actions + ACTION_SIZE * |o.acts| else o.pattern + ITEM_SIZE * |o.items|
  }

  /** The buffer with one more slot for the item or action w, and its data at `data`. */
  function Grow(o: Out, w: Token, data: int, len: nat): Out {
    var blocks := o.blocks + [Block(data, len)];
    if o.actionsSet then
      o.(acts := o.acts + [ActionSlot(w, if len == 0 then None else Some(data))], data := data, blocks := blocks)
    else
      o.(items := o.items + [ItemSlot(w, None, None, None)], data := data, blocks := blocks)
  }

  /** The two-ended allocation for the item or action w: one more slot going up, `len` bytes of data
      going down. */
  function Allocate(T: Table, s: State, w: Token, len: nat): Option<State> {
    var o := s.out;
    var data := Floor8(o.data - len);
    if SlotAt(o) + (if o.actionsSet then ACTION_SIZE else ITEM_SIZE) > data then None
    else Some(s.(dataSize := len, counter := 0, obj := SlotAt(o), objmask := None, out := Grow(o, w, data, len)))
  }

  /** parse_vc */
  function ParseVc(T: Table, s: State, w: Token): Option<State>
    requires InTable(T, w)
  {
    var o := s.out;
    if o.command.None? then
      if w.Validate? || w.Create? then StartCommand(T, s, w) else None
    else
      match w
      case Group | Priority => Some(PointAt(s, T.base + T.attrOffset))
      case Ingress => Some(PointAt(s, T.base + T.attrOffset).(out := o.(ingress := true)))
      case Egress => Some(PointAt(s, T.base + T.attrOffset).(out := o.(egress := true)))
      case Transfer => Some(PointAt(s, T.base + T.attrOffset).(out := o.(transfer := true)))
      case Pattern =>
        var p := Ceil8(T.base + T.bufferSize);
        Some(PointAt(s, p).(out := o.(patternSet := true, pattern := p)))
      case Actions =>
        var a := Ceil8(o.pattern + ITEM_SIZE * |o.items|);
        Some(PointAt(s, a).(out := o.(actionsSet := true, actions := a)))
      case Item(i) => Allocate(T, s, w, 3 * T.items[i].size)
      case ItemEnd | ActionEnd => Allocate(T, s, w, 0)
      case Action(a) => Allocate(T, s, w, T.actions[a].size)
      case Rss => Allocate(T, s, w, T.rssSize)
      case _ => None
  }

  /** parse_destroy and parse_list: one more identifier slot. */
  function ParseIds(T: Table, s: State, w: Token): Option<State> {
    if s.out.command.None? then
      if w.Destroy? || w.ListRules? then StartCommand(T, s, w) else None
    else if s.out.ids + ID_SIZE * s.out.idN + ID_SIZE > T.base + T.size then None
    else Some(PointAt(s, s.out.ids + ID_SIZE * s.out.idN).(out := s.out.(idN := s.out.idN + 1)))
  }

  /** An item whose pointer to spec, last or mask is set; `is` also sets the mask. */
  function PointItem(i: ItemSlot, p: Param, obj: int, mask: int): ItemSlot {
    match p
    case Is => i.(spec := Some(obj), mask := Some(mask))
    case Spec => i.(spec := Some(obj))
    case Last => i.(last := Some(obj))
    case Mask | Prefix => i.(mask := Some(obj))
  }

  /** parse_vc_spec: selects a third of the latest data block, points the latest item to it, and for
      `prefix` rewrites the list of expected values below the top of the stack. */
  function ParseVcSpec(T: Table, s: State, p: Param): Option<State> {
    var third := match p { case Is => 0 case Spec => 0 case Last => 1 case Mask => 2 case Prefix => 2 };
    if p.Prefix? && |s.next| < 2 then None
    else if |s.out.items| == 0 then None
    else
      var next := if p.Prefix? then s.next[|s.next| - 2 := Value(PrefixLength)] else s.next;
      var n := s.dataSize / 3;
      var obj, mask := s.out.data + n * third, s.out.data + n * 2;
      var latest := |s.out.items| - 1;
      Some(s.(next := next, obj := obj, objmask := if p.Is? then Some(mask) else None,
              out := s.out.(items := s.out.items[latest := PointItem(s.out.items[latest], p, obj, mask)])))
  }

  /** Bytes that hex digits make, two digits each. */
  function HexBytes(t: Input): nat {
    (t.len + 1) / 2
  }

  /** The width check of parse_int; bit-fields take what fits. */
  predicate NumberFits(v: nat, a: Arg) {
    a.masked || v < Pow2(8 * a.size)
  }

  predicate IsNumber(k: Kind) {
    k.Integer? || k.Unsigned? || k.Boolean? || k.RuleId? || k.PortId? || k.GroupId? || k.Level?
  }

  /** Whether a value parser takes the text, given descriptors it can work with: numbers fit their
      field, strings are no longer than theirs, hex has 1 to 256 digits, and the lengths of both
      fit the field for the length. */
  predicate TextOk(k: Kind, args: seq<Arg>, t: Input)
    requires |args| >= Pops(k)
  {
    var n := |args|;
    && t.converts
    && (IsNumber(k) ==> NumberFits(t.value, args[n - 1]))
    && (k.Text? ==> t.len <= args[n - 1].size && NumberFits(t.len, args[n - 2]))
    && (k.Hex? ==> 0 < t.len <= HEX_DIGITS && NumberFits(HexBytes(t), args[n - 2]))
  }

  /** A value parser: takes its descriptors off the stack.  A descriptor the kind cannot work with
      is refused, and so is text it does not take. */
  function ParseValue(s: State, k: Kind, t: Input): Option<State> {
    var n := |s.args|;
    if n < Pops(k) then None
    else if !Supports(k, s.args[n - 1]) || (Pops(k) == 3 && !IntSize(s.args[n - 2])) then None
    else if !TextOk(k, s.args, t) then None
    else Some(s.(args := s.args[..n - Pops(k)]))
  }

  /** The .call column; parse_default where it is empty. */
  function Call(T: Table, s: State, w: Token): Option<State>
    requires InTable(T, w)
  {
    match w
    case Flow => if T.size < T.bufferSize then None else Some(PointAt(s, T.base).(out := NoOut))
    case Destroy | ListRules | DestroyRule | ListGroup => ParseIds(T, s, w)
    case Flush | Query | Isolate => if s.out.command.None? then StartCommand(T, s, w) else Some(s)
    case Validate | Create | Group | Priority | Ingress | Egress | Transfer | Pattern
      | ItemEnd | Item(_) | Actions | ActionEnd | Action(_) => ParseVc(T, s, w)
    case ItemParam(p) => ParseVcSpec(T, s, p)
    case ActionField(_, _) | RssQueues => Some(s.(obj := s.out.data, objmask := None))
    case Rss =>
      (match ParseVc(T, s, w)
       case None => None
       case Some(t) => if |t.out.acts| == 0 then None else Some(t.(obj := t.out.data, objmask := None)))
    case RssType(end) =>
      if end then Some(s.(counter := 0))
      else if |s.next| == CTX_STACK_SIZE then None
      else Some(s.(counter := 1, next := s.next + [RssTypeList]))
    case RssQueue(end) =>
      if end then Some(s.(counter := 0))
      else if s.counter >= RSS_QUEUE_NUM || |s.args| == CTX_STACK_SIZE || |s.next| == CTX_STACK_SIZE then None
      else Some(s.(counter := s.counter + 1, next := s.next + [RssQueueList]))
    case Val(k, t) => ParseValue(s, k, t)
    case ItemNext | ItemField(_, _) | ActionNext | RssFunc | RssFuncName | RssLevel | RssKeyLen | RssKey
      | RssTypes => Some(s)
  }

  /** A fresh context first expects `flow`. */
  function Open(s: State): State {
    if s.next == [] && !s.started then s.(started := true, next := [FlowOnly]) else s
  }

  /** Drop the list the word was matched against and push the row's lists and descriptors. */
  function Advance(T: Table, t: State, w: Token): Option<State>
    requires InTable(T, w)
  {
    if t.next == [] then None
    else
      var next := t.next[..|t.next| - 1] + Next(T, w);
      var args := t.args + Args(T, w);
      if |next| > CTX_STACK_SIZE || |args| > CTX_STACK_SIZE then None
      else Some(t.(next := next, args := args))
  }

  /** cmd_flow_parse: match against the list on top, call, drop the list, push what follows. */
  function Step(T: Table, s0: State, w: Token): Option<State> {
    var s := Open(s0);
    if s.next == [] || !InTable(T, w) || !Member(T, s.next[|s.next| - 1], w) then None
    else match Call(T, s, w)
      case None => None
      case Some(t) => Advance(T, t, w)
  }

  function Run(T: Table, s: State, ws: seq<Token>): Option<State>
    decreases |ws|
  {
    if ws == [] then Some(s)
    else match Step(T, s, ws[0])
      case None => None
      case Some(t) => Run(T, t, ws[1..])
  }

  /** cmd_flow_tok asks for no further word. */
  predicate Complete(s: State) {
    s.started && (s.next == [] || MayEnd(s.next[|s.next| - 1]))
  }

  // ---------------------------------------------------------------- the calls by word

  /** Words of parse_vc with private data in the table. */
  predicate Allocates(w: Token) {
    w.Item? || w.ItemEnd? || w.Action? || w.Rss? || w.ActionEnd?
  }

  /** priv->size, three times for an item. */
  function EntrySize(T: Table, w: Token): nat
    requires InTable(T, w) && Allocates(w)
  {
    match w
    case Item(i) => 3 * T.items[i].size
    case Action(a) => T.actions[a].size
    case Rss => T.rssSize
    case _ => 0
  }

  lemma EntryAllocates(T: Table, s: State, w: Token)
    requires InTable(T, w) && Allocates(w) && s.out.command.Some?
    ensures ParseVc(T, s, w) == Allocate(T, s, w, EntrySize(T, w))
  {
    hide Allocate;
  }

  lemma FirstOfRule(T: Table, s: State, w: Token)
    requires InTable(T, w) && s.out.command.None?
    ensures w.Validate? || w.Create? ==> ParseVc(T, s, w) == StartCommand(T, s, w)
    ensures !w.Validate? && !w.Create? ==> ParseVc(T, s, w) == None
  {
    hide StartCommand;
  }

  lemma LeafCallIs(T: Table, s: State, w: Token)
    requires InTable(T, w) && LeafToken(w)
    ensures w.ItemParam? ==> Call(T, s, w) == ParseVcSpec(T, s, w.p)
    ensures w.Val? ==> Call(T, s, w) == ParseValue(s, w.kind, w.text)
    ensures w.RssFuncName? ==> Call(T, s, w) == Some(s)
    ensures w.ItemParam? || w.Val? || w.RssFuncName? || w.RssType? || w.RssQueue?
  {
    hide ParseVcSpec, ParseValue;
  }

  lemma HomeCallIs(T: Table, s: State, w: Token)
    requires InTable(T, w) && !LeafToken(w)
    ensures w.Destroy? || w.ListRules? || w.DestroyRule? || w.ListGroup? ==> Call(T, s, w) == ParseIds(T, s, w)
    ensures (w.Flush? || w.Query? || w.Isolate? ==>
               Call(T, s, w) == if s.out.command.None? then StartCommand(T, s, w) else Some(s))
    ensures (w.Validate? || w.Create? || w.Group? || w.Priority? || w.Ingress? || w.Egress? || w.Transfer? || w.Pattern?
             || w.ItemEnd? || w.Item? || w.Actions? || w.ActionEnd? || w.Action? ==>
               Call(T, s, w) == ParseVc(T, s, w))
    ensures w.ActionField? || w.RssQueues? ==> Call(T, s, w) == Some(s.(obj := s.out.data, objmask := None))
    ensures (w.ItemNext? || w.ItemField? || w.ActionNext? || w.RssFunc? || w.RssLevel? || w.RssKeyLen? || w.RssKey?
             || w.RssTypes? ==>
               Call(T, s, w) == Some(s))
  {
    hide ParseVc, ParseIds, StartCommand;
  }

  // ---------------------------------------------------------------- the two stacks

  /** Lists whose tokens push nothing new, so they only ever stand above another list. */
  predicate Leaf(l: List) {
    l.Value? || l.ItemParams? || l.RawParams? || l.RssFuncs? || l.RssTypeList? || l.RssQueueList?
  }

  /** The top descriptors are what a value of this kind needs. */
  predicate Feeds(k: Kind, args: seq<Arg>) {
    && |args| >= Pops(k)
    && Supports(k, args[|args| - 1])
    && (Pops(k) == 3 ==> IntSize(args[|args| - 2]) && !args[|args| - 3].masked)
  }

  /** Going down both stacks together, every pending value finds its own descriptors, and
      nothing is left over.  A parameter list always has the value it may rewrite below it. */
  predicate Matched(next: seq<List>, args: seq<Arg>)
    decreases |next|
  {
    if next == [] then args == []
    else
      var rest := next[..|next| - 1];
      match next[|next| - 1]
      case Value(k) => Feeds(k, args) && Matched(rest, args[..|args| - Pops(k)])
      case ItemParams => rest != [] && rest[|rest| - 1].Value? && Pops(rest[|rest| - 1].kind) == 1 && Matched(rest, args)
      case RawParams => rest != [] && rest[|rest| - 1].Value? && Matched(rest, args)
      case _ => Matched(rest, args)
  }

  /** Descriptors the pending lists will pop. */
  function Demand(next: seq<List>): nat {
    if next == [] then 0
    else Demand(next[..|next| - 1]) + if next[|next| - 1].Value? then Pops(next[|next| - 1].kind) else 0
  }

  lemma {:induction false} MatchedDemand(next: seq<List>, args: seq<Arg>)
    requires Matched(next, args)
    ensures |args| == Demand(next)
    decreases |next|
  {
    if next != [] {
      var rest := next[..|next| - 1];
      match next[|next| - 1]
      case Value(k) => MatchedDemand(rest, args[..|args| - Pops(k)]);
      case _ => MatchedDemand(rest, args);
    }
  }

  /** At most three lists: either values only, or one other list with at most a value, or
      another leaf, or a value and the parameter that says how to take it, above it. */
  predicate Shape(next: seq<List>) {
    && |next| <= 3
    && ((forall k | 0 <= k < |next| :: next[k].Value? && Pops(next[k].kind) == 1)
        || (!Leaf(next[0])
            && (|next| == 2 ==> Leaf(next[1]) && !next[1].ItemParams? && !next[1].RawParams?)
            && (|next| == 3 ==> next[1].Value? && (next[2].ItemParams? || next[2].RawParams?))))
  }

  /** The invariant of the two stacks. */
  predicate StacksOk(next: seq<List>, args: seq<Arg>) {
    Shape(next) && Matched(next, args)
  }

  // ---------------------------------------------------------------- the two-ended buffer

  /** Where the k-th block has to end. */
  function Ceiling(top: int, blocks: seq<Block>, k: nat): int
    requires k <= |blocks|
  {
    if k == 0 then top else blocks[k - 1].addr
  }

  /** Data blocks lie one below the other under the end of the buffer, 8-byte aligned. */
  predicate BlocksOk(top: int, blocks: seq<Block>, data: int) {
    && (forall k | 0 <= k < |blocks| :: blocks[k].addr % 8 == 0)
    && (forall k | 0 <= k < |blocks| :: blocks[k].addr + blocks[k].len <= Ceiling(top, blocks, k))
    && data == Ceiling(top, blocks, |blocks|)
  }

  /** The item array, the action array and the data blocks follow each other without overlap. */
  predicate BufferSound(T: Table, o: Out) {
    && T.bufferSize <= T.size
    && BlocksOk(T.base + T.size, o.blocks, o.data)
    && (o.patternSet ==> o.pattern == Ceil8(T.base + T.bufferSize))
    && (|o.items| > 0 ==> o.patternSet && o.pattern + ITEM_SIZE * |o.items| <= o.data)
    && (o.actionsSet ==> |o.items| > 0 && o.actions == o.pattern + ITEM_SIZE * |o.items|)
    && (|o.acts| > 0 ==> o.actionsSet && o.actions + ACTION_SIZE * |o.acts| <= o.data)
  }

  predicate LastBlock(o: Out, len: nat) {
    o.blocks != [] && o.blocks[|o.blocks| - 1] == Block(o.data, len)
  }

  predicate RowBlock(o: Out, items: bool, len: nat) {
    && o.patternSet && |o.items| > 0 && o.actionsSet == !items && (!items ==> |o.acts| > 0)
    && LastBlock(o, len)
  }

  predicate IdsSound(T: Table, o: Out) {
    && T.bufferSize <= T.size && o.ids == Ceil8(T.base + T.bufferSize)
    && (o.idN > 0 ==> o.ids + ID_SIZE * o.idN <= T.base + T.size)
  }

  // ---------------------------------------------------------------- lists and the buffer

  /** The output buffer when this list is at the bottom of the stack. */
  predicate OutFor(T: Table, o: Out, home: List) {
    match home
    case FlowOnly => o == NoOut
    case Top => o == NoOut && T.bufferSize <= T.size
    case VcAttrs => o.command.Some? && BufferSound(T, o) && !o.patternSet && !o.actionsSet
    case NextItem => o.command.Some? && BufferSound(T, o) && o.patternSet && !o.actionsSet
    case FieldsOf(i) => i < |T.items| && o.command.Some? && BufferSound(T, o) && RowBlock(o, true, 3 * T.items[i].size)
    case JustActions => o.command.Some? && BufferSound(T, o) && o.patternSet && |o.items| > 0 && !o.actionsSet
    case NextAction => o.command.Some? && BufferSound(T, o) && o.patternSet && o.actionsSet
    case ActionFieldsOf(a) => a < |T.actions| && o.command.Some? && BufferSound(T, o) && RowBlock(o, false, T.actions[a].size)
    case RssFields => o.command.Some? && BufferSound(T, o) && RowBlock(o, false, T.rssSize)
    case DestroyAttrs | ListAttrs | JustDestroyRule => o.command.Some? && IdsSound(T, o) && !o.patternSet
    case Value(_) => o.command.Some? && T.bufferSize <= T.size && !o.patternSet
    case _ => false
  }

  /** Bytes at ctx->object a pending value may use. */
  function Room(T: Table, home: List, top: List): nat {
    match home
    case FieldsOf(i) => if i < |T.items| then T.items[i].size else 0
    case ActionFieldsOf(a) => if a < |T.actions| then T.actions[a].size else 0
    case RssFields => T.rssSize
    case VcAttrs =>
      if top == Value(PortId) || T.attrOffset > T.bufferSize then T.bufferSize else T.bufferSize - T.attrOffset
    case DestroyAttrs | ListAttrs => if top == Value(PortId) then T.bufferSize else ID_SIZE
    case _ => T.bufferSize
  }

  /** One of the three parts of the latest data block: spec, last or mask; a full mask may be
      written along with spec. */
  predicate InThird(s: State, n: nat) {
    && (s.obj == s.out.data || s.obj == s.out.data + n || s.obj == s.out.data + 2 * n)
    && (s.objmask == None || (s.objmask == Some(s.out.data + 2 * n) && s.obj == s.out.data))
  }

  /** Where ctx->object and ctx->objmask point when a value is next. */
  predicate ObjectFor(T: Table, s: State, home: List, top: List) {
    match home
    case FieldsOf(i) => i < |T.items| && InThird(s, T.items[i].size)
    case ActionFieldsOf(_) | RssFields => s.obj == s.out.data && s.objmask == None
    case VcAttrs => s.obj == T.base + (if top == Value(PortId) then 0 else T.attrOffset) && s.objmask == None
    case DestroyAttrs | ListAttrs =>
      && s.objmask == None
      && (if top == Value(PortId) then s.obj == T.base
          else s.out.idN > 0 && s.obj == s.out.ids + ID_SIZE * (s.out.idN - 1))
    case _ => s.obj == T.base && s.objmask == None
  }

  /** The buffer and the object pointers are what the pending lists expect; with nothing
      pending any more, a finished rule is laid out soundly. */
  predicate Placed(T: Table, s: State, next: seq<List>) {
    if next == [] then s.out.patternSet ==> BufferSound(T, s.out)
    else
      var home := next[0];
      var top := next[|next| - 1];
      && s.started && OutFor(T, s.out, home)
      && (home.FieldsOf? ==> s.dataSize == 3 * T.items[home.i].size)
      && (home.RssFields? ==> ObjectFor(T, s, home, home) && s.counter <= RSS_QUEUE_NUM)
      && (top.Value? ==> ObjectFor(T, s, home, top))
      && (top.ItemParams? || top.RawParams? ==> home.FieldsOf?)
      && (top.RssTypeList? || top.RssQueueList? || top.RssFuncs? ==> home.RssFields?)
  }

  /** The pending descriptors stay within the object they apply to. */
  predicate ArgsFit(T: Table, next: seq<List>, args: seq<Arg>) {
    next != [] ==> forall a | a in args :: a.offset + a.size <= Room(T, next[0], next[|next| - 1])
  }

  /** The whole invariant. */
  predicate Inv(T: Table, s: State) {
    && StacksOk(s.next, s.args)
    && (!s.started ==> s.next == [] && s.out == NoOut)
    && Placed(T, s, s.next) && ArgsFit(T, s.next, s.args)
  }

  // ---------------------------------------------------------------- one word

  lemma StepInversion(T: Table, s0: State, w: Token) returns (s: State, u: State)
    requires Step(T, s0, w).Some?
    ensures s == if s0.next == [] then s0.(started := true, next := [FlowOnly]) else s0
    ensures s0.next == [] ==> !s0.started
    ensures s.next != [] && Member(T, s.next[|s.next| - 1], w) && InTable(T, w)
    ensures Call(T, s, w) == Some(u) && u.next != []
    ensures Step(T, s0, w).value == u.(next := u.next[..|u.next| - 1] + Next(T, w), args := u.args + Args(T, w))
  {
    hide Call, Next, Args, Member, InTable;
    s := if s0.next == [] then s0.(started := true, next := [FlowOnly]) else s0;
    u := Call(T, s, w).value;
  }

  /** Words found in leaf lists. */
  predicate LeafToken(w: Token) {
    w.ItemParam? || w.RssFuncName? || w.RssType? || w.RssQueue? || w.Val?
  }

  lemma LeafTokens(T: Table, l: List, w: Token)
    requires Member(T, l, w)
    ensures LeafToken(w) <==> Leaf(l)
  {}

  /** Only the bottom list can be a non-leaf, so when one is consulted nothing else is pending. */
  lemma NothingElsePending(next: seq<List>, args: seq<Arg>)
    requires StacksOk(next, args) && next != [] && !Leaf(next[|next| - 1])
    ensures |next| == 1 && args == []
  {
    assert Matched([], args);
  }

  lemma OneListMatches(l: List)
    requires !Leaf(l)
    ensures Matched([l], []) && StacksOk([l], [])
  {
    assert [l][..0] == [];
    assert Matched([], []);
  }

  lemma PushValue(next: seq<List>, args: seq<Arg>, k: Kind, more: seq<Arg>)
    requires Matched(next, args) && |more| == Pops(k) && Feeds(k, more)
    ensures Matched(next + [Value(k)], args + more)
  {
    var n := next + [Value(k)];
    assert n[..|n| - 1] == next;
    assert (args + more)[..|args + more| - Pops(k)] == args;
  }

  lemma PushParams(next: seq<List>, args: seq<Arg>, l: List, next': seq<List>)
    requires StacksOk(next, args) && |next| == 2 && next[1].Value? && !Leaf(next[0])
    requires l == RawParams || (l == ItemParams && Pops(next[1].kind) == 1)
    requires next' == next + [l]
    ensures StacksOk(next', args)
  {
    assert next'[..|next'| - 1] == next;
  }

  /** One list and one value of that kind on it. */
  lemma HomeAndValue(home: List, k: Kind, args: seq<Arg>)
    requires !Leaf(home) && |args| == Pops(k) && Feeds(k, args)
    ensures StacksOk([home, Value(k)], args)
  {
    OneListMatches(home);
    PushValue([home], [], k, args);
    assert [home] + [Value(k)] == [home, Value(k)] && [] + args == args;
  }

  lemma PushIntValue(next: seq<List>, args: seq<Arg>, k: Kind, a: Arg, next': seq<List>, args': seq<Arg>)
    requires StacksOk(next, args) && |next| <= 2 && (next == [] || next[0].Value?)
    requires Feeds(k, [a]) && Pops(k) == 1
    requires next' == next + [Value(k)] && args' == args + [a]
    ensures StacksOk(next', args')
  {
    PushValue(next, args, k, [a]);
  }

  lemma ValueRowFacts(T: Table)
    requires TableOk(T)
    ensures Feeds(ActionName, [T.queryType]) && Feeds(RuleId, [T.queryRule]) && Feeds(PortId, [T.port])
    ensures Feeds(Boolean, [T.isolateSet])
    ensures Pops(ActionName) == Pops(RuleId) == Pops(PortId) == Pops(Boolean) == 1
    ensures StacksOk([], [])
  {
    FieldFeeds(Field(ActionName, [T.queryType]), T.bufferSize);
    FieldFeeds(Field(RuleId, [T.queryRule]), T.bufferSize);
    FieldFeeds(Field(PortId, [T.port]), T.bufferSize);
    FieldFeeds(Field(Boolean, [T.isolateSet]), T.bufferSize);
  }

  /** Rows of values only: a stack of value lists, each with its descriptor. */
  lemma ValueRowsMatch(T: Table)
    requires TableOk(T)
    ensures StacksOk([Value(ActionName), Value(RuleId), Value(PortId)], [T.queryType, T.queryRule, T.port])
    ensures StacksOk([Value(Boolean), Value(PortId)], [T.isolateSet, T.port])
    ensures StacksOk([Value(PortId)], [T.port])
  {
    hide *;
    ValueRowFacts(T);
    PushIntValue([], [], ActionName, T.queryType, [Value(ActionName)], [T.queryType]);
    PushIntValue([Value(ActionName)], [T.queryType], RuleId, T.queryRule,
                 [Value(ActionName), Value(RuleId)], [T.queryType, T.queryRule]);
    PushIntValue([Value(ActionName), Value(RuleId)], [T.queryType, T.queryRule], PortId, T.port,
                 [Value(ActionName), Value(RuleId), Value(PortId)], [T.queryType, T.queryRule, T.port]);
    PushIntValue([], [], Boolean, T.isolateSet, [Value(Boolean)], [T.isolateSet]);
    PushIntValue([], [], PortId, T.port, [Value(PortId)], [T.port]);
    PushIntValue([Value(Boolean)], [T.isolateSet], PortId, T.port, [Value(Boolean), Value(PortId)], [T.isolateSet, T.port]);
  }

  predicate ValueRow(w: Token) {
    w.Query? || w.Isolate? || w.Flush?
  }

  lemma ValueRows(T: Table, w: Token)
    requires TableOk(T) && ValueRow(w)
    ensures StacksOk(Next(T, w), Args(T, w))
  {
    hide StacksOk, TableOk;
    ValueRowsMatch(T);
  }

  lemma TableFields(T: Table)
    requires TableOk(T)
    ensures forall w: Token | w.ItemField? && InTable(T, w) :: FieldOk(T.items[w.i].fields[w.f], T.items[w.i].size)
    ensures forall w: Token | w.ActionField? && InTable(T, w) :: FieldOk(T.actions[w.a].fields[w.f], T.actions[w.a].size)
  {
    forall w: Token | w.ItemField? && InTable(T, w) ensures FieldOk(T.items[w.i].fields[w.f], T.items[w.i].size) {
      assert RowOk(T.items[w.i]);
    }
    forall w: Token | w.ActionField? && InTable(T, w) ensures FieldOk(T.actions[w.a].fields[w.f], T.actions[w.a].size) {
      assert RowOk(T.actions[w.a]);
    }
  }

  lemma FieldFeeds(f: Field, size: nat)
    requires FieldOk(f, size)
    ensures |f.args| == Pops(f.kind) && Feeds(f.kind, f.args) && (Pops(f.kind) == 1 || Pops(f.kind) == 3)
  {}

  /** Rows that push a list and a value on top of it, or also a parameter list: the field
      they stand for. */
  function RowField(T: Table, w: Token): Option<Field>
    requires InTable(T, w)
  {
    match w
    case Validate | Create | Destroy | ListRules => Some(Field(PortId, [T.port]))
    case DestroyRule => Some(Field(RuleId, [IdArg]))
    case ListGroup => Some(Field(GroupId, [IdArg]))
    case Group => Some(Field(GroupId, [T.group]))
    case Priority => Some(Field(Level, [T.priority]))
    case ItemField(i, f) => Some(T.items[i].fields[f])
    case ActionField(a, f) => Some(T.actions[a].fields[f])
    case RssLevel => Some(Field(Unsigned, [T.rssLevel]))
    case RssKeyLen => Some(Field(Unsigned, [T.rssKeyLen]))
    case RssKey => Some(Field(Hex, T.rssKey))
    case _ => None
  }

  lemma RowFieldShape(T: Table, w: Token, home: List)
    requires InTable(T, w) && RowField(T, w).Some? && home == Next(T, w)[0]
    ensures var f := RowField(T, w).value;
            && !Leaf(home) && Args(T, w) == f.args
            && (Next(T, w) == [home, Value(f.kind)]
                || Next(T, w) == [home, Value(f.kind), if Pops(f.kind) == 3 then RawParams else ItemParams])
  {}

  /** Size of the structure the descriptors of a row belong to. */
  function RowSize(T: Table, w: Token): nat
    requires InTable(T, w)
  {
    match w
    case DestroyRule | ListGroup => ID_SIZE
    case Group | Priority => if T.attrOffset > T.bufferSize then T.bufferSize else T.bufferSize - T.attrOffset
    case ItemField(i, f) => T.items[i].size
    case ActionField(a, f) => T.actions[a].size
    case RssLevel | RssKeyLen | RssKey => T.rssSize
    case _ => T.bufferSize
  }

  lemma IdFieldOk()
    ensures FieldOk(Field(RuleId, [IdArg]), ID_SIZE) && FieldOk(Field(GroupId, [IdArg]), ID_SIZE)
  {}

  lemma RowFieldOk(T: Table, w: Token)
    requires TableOk(T) && InTable(T, w) && RowField(T, w).Some?
    ensures FieldOk(RowField(T, w).value, RowSize(T, w))
  {
    hide FieldOk, RowOk;
    TableFields(T);
    IdFieldOk();
  }

  lemma FieldRows(T: Table, w: Token)
    requires TableOk(T) && InTable(T, w) && RowField(T, w).Some?
    ensures StacksOk(Next(T, w), Args(T, w))
  {
    hide *;
    var f := RowField(T, w).value;
    RowFieldOk(T, w);
    FieldFeeds(f, RowSize(T, w));
    assert Next(T, w) != [] by { RowFieldNonEmpty(T, w); }
    var home := Next(T, w)[0];
    RowFieldShape(T, w, home);
    HomeAndValue(home, f.kind, f.args);
    if |Next(T, w)| == 3 {
      PushParams([home, Value(f.kind)], f.args, if Pops(f.kind) == 3 then RawParams else ItemParams, Next(T, w));
    }
  }

  lemma RowFieldNonEmpty(T: Table, w: Token)
    requires InTable(T, w) && RowField(T, w).Some?
    ensures Next(T, w) != []
  {}

  lemma ListRowFacts(T: Table, w: Token)
    requires InTable(T, w) && !LeafToken(w) && !ValueRow(w) && RowField(T, w).None?
    ensures Args(T, w) == []
    ensures Next(T, w) == [] || (|Next(T, w)| == 1 && !Leaf(Next(T, w)[0]))
         || (|Next(T, w)| == 2 && Next(T, w)[0] == RssFields
             && (Next(T, w)[1].RssFuncs? || Next(T, w)[1].RssTypeList? || Next(T, w)[1].RssQueueList?))
  {}

  lemma ListsMatch(next: seq<List>)
    requires next == [] || (|next| == 1 && !Leaf(next[0]))
         || (|next| == 2 && next[0] == RssFields && (next[1].RssFuncs? || next[1].RssTypeList? || next[1].RssQueueList?))
    ensures StacksOk(next, [])
  {
    assert Matched([], []);
    if |next| >= 1 { OneListMatches(next[0]); }
    if |next| == 2 { assert next[..1] == [next[0]]; }
  }

  /** Every row of the table pushes lists and descriptors that match. */
  lemma RowsMatch(T: Table, w: Token)
    requires TableOk(T) && InTable(T, w) && !LeafToken(w)
    ensures StacksOk(Next(T, w), Args(T, w))
  {
    hide *;
    if ValueRow(w) {
      ValueRows(T, w);
    } else if RowField(T, w).Some? {
      FieldRows(T, w);
    } else {
      ListRowFacts(T, w);
      ListsMatch(Next(T, w));
    }
  }

  /** parse_vc_spec on `prefix` leaves a value that still takes one descriptor. */
  lemma PrefixKeepsStacks(next: seq<List>, args: seq<Arg>)
    requires StacksOk(next, args) && next != [] && next[|next| - 1] == ItemParams
    ensures |next| >= 2 && StacksOk(next[..|next| - 2] + [Value(PrefixLength)], args)
  {
    var rest := next[..|next| - 1];
    var below := rest[..|rest| - 1];
    assert below == next[..|next| - 2];
    assert Matched(rest, args);
    assert Matched(below, args[..|args| - 1]);
    PushValue(below, args[..|args| - 1], PrefixLength, args[|args| - 1..]);
    assert args[..|args| - 1] + args[|args| - 1..] == args;
  }

  lemma DropLeaf(next: seq<List>, args: seq<Arg>)
    requires StacksOk(next, args) && next != []
    ensures !next[|next| - 1].Value? ==> StacksOk(next[..|next| - 1], args)
    ensures next[|next| - 1].Value? ==>
              var n := Pops(next[|next| - 1].kind); n <= |args| && StacksOk(next[..|next| - 1], args[..|args| - n])
  {}

  /** What the calls of leaf words do to the two stacks. */
  lemma LeafCallFacts(T: Table, s: State, u: State, w: Token)
    requires s.next != [] && Member(T, s.next[|s.next| - 1], w)
    requires InTable(T, w) && LeafToken(w) && Call(T, s, w) == Some(u)
    ensures var n := |s.next|;
            && (w.Val? ==>
                  u.next == s.next && s.next[n - 1] == Value(w.kind)
                  && Pops(w.kind) <= |s.args| && u.args == s.args[..|s.args| - Pops(w.kind)])
            && (w == ItemParam(Prefix) ==>
                  s.next[n - 1] == ItemParams && u.args == s.args
                  && n >= 2 && u.next == s.next[n - 2 := Value(PrefixLength)])
            && (w.ItemParam? ==> u.args == s.args && !s.next[n - 1].Value?)
            && (w.ItemParam? && w != ItemParam(Prefix) ==> u.next == s.next)
            && (!w.Val? && !w.ItemParam? ==>
                  u.args == s.args && !s.next[n - 1].Value?
                  && (u.next == s.next || u.next == s.next + [s.next[n - 1]]))
  {}

  /** Words from a leaf list only take from the stacks, or put back what they took. */
  lemma LeafWordKeepsStacks(T: Table, s: State, u: State, w: Token)
    requires StacksOk(s.next, s.args) && s.next != [] && Member(T, s.next[|s.next| - 1], w)
    requires InTable(T, w) && LeafToken(w) && Call(T, s, w) == Some(u) && u.next != []
    ensures StacksOk(u.next[..|u.next| - 1], u.args)
  {
    hide *;
    LeafCallFacts(T, s, u, w);
    DropLeaf(s.next, s.args);
    var n := |s.next|;
    if w == ItemParam(Prefix) {
      PrefixKeepsStacks(s.next, s.args);
      assert u.next[..n - 1] == s.next[..n - 2] + [Value(PrefixLength)];
    } else if u.next != s.next {
      assert u.next[..n] == s.next;
    }
  }

  lemma ParseVcKeeps(T: Table, s: State, w: Token, u: State)
    requires InTable(T, w) && ParseVc(T, s, w) == Some(u)
    ensures u.next == s.next && u.args == s.args && u.started == s.started
  {
    hide Ceil8, Floor8;
  }

  lemma ParseIdsKeeps(T: Table, s: State, w: Token, u: State)
    requires ParseIds(T, s, w) == Some(u)
    ensures u.next == s.next && u.args == s.args && u.started == s.started
  {
    hide Ceil8, Floor8;
  }

  lemma HomeCallKeeps(T: Table, s: State, u: State, w: Token)
    requires InTable(T, w) && !LeafToken(w) && Call(T, s, w) == Some(u)
    ensures u.next == s.next && u.args == s.args && u.started == s.started
  {
    hide ParseVc, ParseIds, InTable, Ceil8;
    if ParseVc(T, s, w).Some? { ParseVcKeeps(T, s, w, ParseVc(T, s, w).value); }
    if ParseIds(T, s, w).Some? { ParseIdsKeeps(T, s, w, ParseIds(T, s, w).value); }
  }

  lemma HomeCallFacts(T: Table, s: State, u: State, w: Token)
    requires InTable(T, w) && !LeafToken(w) && Call(T, s, w) == Some(u)
    ensures u.next == s.next && u.args == s.args
  {
    HomeCallKeeps(T, s, u, w);
    hide *;
  }

  lemma LeafRowFacts(T: Table, w: Token)
    requires InTable(T, w) && LeafToken(w)
    ensures Next(T, w) == [] && Args(T, w) == []
  {}

  lemma StartMatches()
    ensures !Leaf(FlowOnly) && StacksOk([FlowOnly], [])
    ensures forall args | StacksOk([], args) :: args == []
  {
    OneListMatches(FlowOnly);
  }

  /** No accepted word breaks the invariant of the stacks. */
  lemma StepKeepsStacks(T: Table, s0: State, w: Token)
    requires TableOk(T) && StacksOk(s0.next, s0.args) && Step(T, s0, w).Some?
    ensures var t := Step(T, s0, w).value; StacksOk(t.next, t.args)
  {
    hide *;
    var s, u := StepInversion(T, s0, w);
    StartMatches();
    LeafTokens(T, s.next[|s.next| - 1], w);
    if LeafToken(w) {
      LeafWordKeepsStacks(T, s, u, w);
      LeafRowFacts(T, w);
      assert u.next[..|u.next| - 1] + [] == u.next[..|u.next| - 1] && u.args + [] == u.args;
    } else {
      NothingElsePending(s.next, s.args);
      RowsMatch(T, w);
      HomeCallFacts(T, s, u, w);
      assert u.next[..|u.next| - 1] + Next(T, w) == Next(T, w) && u.args + Args(T, w) == Args(T, w);
    }
  }

  // ---------------------------------------------------------------- one word and the buffer

  lemma FloorBelow(x: int, len: nat)
    ensures Floor8(x - len) % 8 == 0 && Floor8(x - len) + len <= x
  {}

  lemma CeilingSame(top: int, blocks: seq<Block>, b: Block, k: nat)
    requires k <= |blocks|
    ensures Ceiling(top, blocks + [b], k) == Ceiling(top, blocks, k)
    ensures Ceiling(top, blocks + [b], |blocks| + 1) == b.addr
  {}

  lemma BlockAppended(top: int, blocks: seq<Block>, data: int, b: Block)
    requires BlocksOk(top, blocks, data) && b.addr % 8 == 0 && b.addr + b.len <= data
    ensures BlocksOk(top, blocks + [b], b.addr)
  {
    var bs := blocks + [b];
    CeilingSame(top, blocks, b, 0);
    hide Ceiling;
    forall k | 0 <= k < |bs|
      ensures bs[k].addr % 8 == 0 && bs[k].addr + bs[k].len <= Ceiling(top, bs, k)
    {
      CeilingSame(top, blocks, b, k);
      if k < |blocks| { assert bs[k] == blocks[k]; }
    }
  }

  lemma AllocateSound(T: Table, s: State, w: Token, len: nat, t: State)
    requires BufferSound(T, s.out) && s.out.patternSet && Allocate(T, s, w, len) == Some(t)
    requires s.out.actionsSet ==> |s.out.items| > 0
    ensures BufferSound(T, t.out) && LastBlock(t.out, len) && t.out.patternSet && |t.out.items| > 0
    ensures t.out.actionsSet == s.out.actionsSet && (s.out.actionsSet ==> |t.out.acts| > 0)
    ensures t.out.command == s.out.command && t.started == s.started && t.dataSize == len && t.counter == 0
  {
    FloorBelow(s.out.data, len);
    hide Floor8, BlocksOk;
    BlockAppended(T.base + T.size, s.out.blocks, s.out.data, Block(t.out.data, len));
  }

  lemma RowArgsFit(T: Table, w: Token)
    requires TableOk(T) && InTable(T, w) && !LeafToken(w)
    ensures ArgsFit(T, Next(T, w), Args(T, w))
  {
    hide *;
    if RowField(T, w).Some? {
      RowFieldOk(T, w);
      RowRoom(T, w);
      RowFieldNonEmpty(T, w);
      RowFieldShape(T, w, Next(T, w)[0]);
      FieldArgsFit(RowField(T, w).value, RowSize(T, w));
    } else if ValueRow(w) {
      ValueRowArgs(T, w);
    } else {
      ListRowFacts(T, w);
    }
    FitsRoom(T, Next(T, w), Args(T, w), if RowField(T, w).Some? then RowSize(T, w) else T.bufferSize);
  }

  lemma FitsRoom(T: Table, next: seq<List>, args: seq<Arg>, n: nat)
    requires forall a | a in args :: a.offset + a.size <= n
    requires args != [] && next != [] ==> n == Room(T, next[0], next[|next| - 1])
    ensures ArgsFit(T, next, args)
  {}

  lemma FieldArgsFit(f: Field, size: nat)
    requires FieldOk(f, size)
    ensures forall a | a in f.args :: a.offset + a.size <= size
  {}

  lemma RowRoom(T: Table, w: Token)
    requires TableOk(T) && InTable(T, w) && RowField(T, w).Some?
    ensures Next(T, w) != [] && RowSize(T, w) == Room(T, Next(T, w)[0], Next(T, w)[|Next(T, w)| - 1])
  {
    hide FieldOk, RowOk;
  }

  lemma CommandArgsFit(T: Table)
    requires TableOk(T)
    ensures T.queryType.offset + T.queryType.size <= T.bufferSize && T.queryRule.offset + T.queryRule.size <= T.bufferSize
    ensures T.port.offset + T.port.size <= T.bufferSize && T.isolateSet.offset + T.isolateSet.size <= T.bufferSize
  {
    assert T.queryType in [T.queryType] && T.queryRule in [T.queryRule] && T.port in [T.port];
    assert T.isolateSet in [T.isolateSet];
  }

  lemma ValueRowShape(T: Table, w: Token)
    requires ValueRow(w)
    ensures forall a | a in Args(T, w) :: a == T.queryType || a == T.queryRule || a == T.port || a == T.isolateSet
    ensures Next(T, w) != [] && T.bufferSize == Room(T, Next(T, w)[0], Next(T, w)[|Next(T, w)| - 1])
  {}

  lemma ValueRowArgs(T: Table, w: Token)
    requires TableOk(T) && ValueRow(w) && InTable(T, w)
    ensures forall a | a in Args(T, w) :: a.offset + a.size <= T.bufferSize
    ensures Next(T, w) != [] ==> T.bufferSize == Room(T, Next(T, w)[0], Next(T, w)[|Next(T, w)| - 1])
  {
    hide *;
    CommandArgsFit(T);
    ValueRowShape(T, w);
  }

  // Each lemma below takes the words of one list: if the buffer is what that list expects, then
  // after the call it is what the lists pushed next expect.

  lemma StartCommandPlaced(T: Table, s: State, w: Token, t: State)
    requires s.started && s.out == NoOut && StartCommand(T, s, w) == Some(t)
    ensures t.started && t.out.command.Some? && BufferSound(T, t.out) && IdsSound(T, t.out) && T.bufferSize <= T.size
    ensures !t.out.patternSet && !t.out.actionsSet && t.obj == T.base && t.objmask == None
  {}

  lemma FlowPlaced(T: Table, s: State, t: State)
    requires Placed(T, s, [FlowOnly]) && Call(T, s, Flow) == Some(t)
    ensures Placed(T, t, Next(T, Flow))
  {
    hide BufferSound, IdsSound, ParseVc, ParseIds, ParseVcSpec, ParseValue;
  }

  lemma TopCall(T: Table, s: State, w: Token)
    requires Member(T, Top, w) && Placed(T, s, [Top]) && Call(T, s, w).Some?
    ensures s.started && s.out == NoOut && Call(T, s, w) == StartCommand(T, s, w)
  {
    hide BufferSound, IdsSound, StartCommand;
  }

  lemma FreshCommandPlaced(T: Table, t: State, w: Token)
    requires Member(T, Top, w) && InTable(T, w)
    requires t.started && t.out.command.Some? && BufferSound(T, t.out) && IdsSound(T, t.out) && T.bufferSize <= T.size
    requires !t.out.patternSet && !t.out.actionsSet && t.obj == T.base && t.objmask == None
    ensures Placed(T, t, Next(T, w))
  {
    hide BufferSound, IdsSound;
  }

  lemma TopPlaced(T: Table, s: State, w: Token, t: State)
    requires InTable(T, w) && Member(T, Top, w) && Placed(T, s, [Top]) && Call(T, s, w) == Some(t)
    ensures Placed(T, t, Next(T, w))
  {
    hide *;
    TopCall(T, s, w);
    StartCommandPlaced(T, s, w, t);
    FreshCommandPlaced(T, t, w);
  }

  /** Two buffers that differ in the attributes and in the pointers of items only. */
  predicate SameLayout(o: Out, o': Out) {
    && o' == o.(ingress := o'.ingress, egress := o'.egress, transfer := o'.transfer, items := o'.items)
    && |o'.items| == |o.items|
  }

  lemma LayoutCongruent(T: Table, o: Out, o': Out)
    requires SameLayout(o, o')
    ensures BufferSound(T, o') == BufferSound(T, o)
  {}

  lemma AttrPlaced(T: Table, s: State, w: Token, t: State)
    requires w.Group? || w.Priority? || w.Ingress? || w.Egress? || w.Transfer?
    requires Placed(T, s, [VcAttrs]) && Call(T, s, w) == Some(t)
    ensures Placed(T, t, Next(T, w))
  {
    LayoutCongruent(T, s.out, t.out);
    hide BufferSound;
  }

  lemma PatternPlaced(T: Table, s: State, t: State)
    requires Placed(T, s, [VcAttrs]) && Call(T, s, Pattern) == Some(t)
    ensures Placed(T, t, Next(T, Pattern))
  {
    hide Ceil8, BlocksOk;
  }

  lemma ItemCall(T: Table, s: State, w: Token, t: State)
    requires InTable(T, w) && (w.Item? || w.ItemEnd?)
    requires Placed(T, s, [NextItem]) && Call(T, s, w) == Some(t)
    ensures BufferSound(T, s.out) && s.out.patternSet && !s.out.actionsSet && s.started && s.out.command.Some?
    ensures Allocate(T, s, w, if w.Item? then 3 * T.items[w.i].size else 0) == Some(t)
  {
    hide BufferSound, Allocate;
  }

  lemma ItemAllocated(T: Table, w: Token, t: State)
    requires InTable(T, w) && (w.Item? || w.ItemEnd?) && t.started && t.out.command.Some?
    requires BufferSound(T, t.out) && t.out.patternSet && |t.out.items| > 0 && !t.out.actionsSet
    requires w.Item? ==> LastBlock(t.out, 3 * T.items[w.i].size) && t.dataSize == 3 * T.items[w.i].size
    ensures Placed(T, t, Next(T, w))
  {
    hide BufferSound;
  }

  lemma ItemPlaced(T: Table, s: State, w: Token, t: State)
    requires InTable(T, w) && (w.Item? || w.ItemEnd?)
    requires Placed(T, s, [NextItem]) && Call(T, s, w) == Some(t)
    ensures Placed(T, t, Next(T, w))
  {
    hide *;
    ItemInTable(T, w);
    ItemCall(T, s, w, t);
    AllocateSound(T, s, w, if w.Item? then 3 * T.items[w.i].size else 0, t);
    ItemAllocated(T, w, t);
  }

  lemma ItemInTable(T: Table, w: Token)
    requires InTable(T, w)
    ensures w.Item? ==> w.i < |T.items|
    ensures w.Action? ==> w.a < |T.actions|
  {}

  lemma FieldsPlaced(T: Table, s: State, i: nat, w: Token, t: State)
    requires InTable(T, w) && Member(T, FieldsOf(i), w)
    requires Placed(T, s, [FieldsOf(i)]) && Call(T, s, w) == Some(t)
    ensures Placed(T, t, Next(T, w))
  {
    hide BufferSound;
  }

  lemma CeilOfAligned(x: int)
    requires x % 8 == 0
    ensures Ceil8(x) == x
  {}

  lemma ItemsAligned(x: int, n: nat)
    ensures (Ceil8(x) + ITEM_SIZE * n) % 8 == 0
  {}

  lemma ActionsPlaced(T: Table, s: State, t: State)
    requires Placed(T, s, [JustActions]) && Call(T, s, Actions) == Some(t)
    ensures Placed(T, t, Next(T, Actions))
  {
    hide Ceil8, BlocksOk, InTable, ParseVcSpec, ParseIds, ParseValue;
    ItemsAligned(T.base + T.bufferSize, |s.out.items|);
    CeilOfAligned(s.out.pattern + ITEM_SIZE * |s.out.items|);
  }

  lemma NextActionFacts(T: Table, s: State)
    requires Placed(T, s, [NextAction])
    ensures BufferSound(T, s.out) && s.out.patternSet && s.out.actionsSet && |s.out.items| > 0
    ensures s.started && s.out.command.Some?
  {}

  lemma ActionCallIs(T: Table, s: State, w: Token)
    requires InTable(T, w) && w.Action? && s.out.command.Some?
    ensures Call(T, s, w) == Allocate(T, s, w, T.actions[w.a].size)
  {
    hide Allocate;
  }

  lemma RssCallIs(T: Table, s: State, t: State)
    requires InTable(T, Rss) && s.out.command.Some? && Call(T, s, Rss) == Some(t)
    ensures Allocate(T, s, Rss, T.rssSize).Some?
    ensures t == Allocate(T, s, Rss, T.rssSize).value.(obj := Allocate(T, s, Rss, T.rssSize).value.out.data, objmask := None)
  {
    hide Allocate;
  }

  lemma ActionCall(T: Table, s: State, w: Token, t: State) returns (t': State)
    requires InTable(T, w) && (w.Action? || w.Rss?)
    requires Placed(T, s, [NextAction]) && Call(T, s, w) == Some(t)
    ensures BufferSound(T, s.out) && s.out.patternSet && s.out.actionsSet && |s.out.items| > 0
    ensures s.started && s.out.command.Some?
    ensures Allocate(T, s, w, if w.Action? then T.actions[w.a].size else T.rssSize) == Some(t')
    ensures t == if w.Rss? then t'.(obj := t'.out.data, objmask := None) else t'
  {
    NextActionFacts(T, s);
    ItemInTable(T, w);
    hide *;
    if w.Action? {
      ActionCallIs(T, s, w);
      t' := t;
    } else {
      RssCallIs(T, s, t);
      t' := Allocate(T, s, Rss, T.rssSize).value;
    }
  }

  lemma ActionAllocated(T: Table, w: Token, t: State)
    requires InTable(T, w) && (w.Action? || w.Rss?) && t.started && t.out.command.Some?
    requires BufferSound(T, t.out) && t.out.patternSet && |t.out.items| > 0 && t.out.actionsSet && |t.out.acts| > 0
    requires LastBlock(t.out, if w.Action? then T.actions[w.a].size else T.rssSize)
    requires w.Rss? ==> t.obj == t.out.data && t.objmask == None && t.counter == 0
    ensures Placed(T, t, Next(T, w))
  {
    hide BufferSound;
  }

  lemma ActionPlaced(T: Table, s: State, w: Token, t: State)
    requires InTable(T, w) && (w.Action? || w.Rss?)
    requires Placed(T, s, [NextAction]) && Call(T, s, w) == Some(t)
    ensures Placed(T, t, Next(T, w))
  {
    hide *;
    ItemInTable(T, w);
    var t' := ActionCall(T, s, w, t);
    AllocateSound(T, s, w, if w.Action? then T.actions[w.a].size else T.rssSize, t');
    ActionAllocated(T, w, t);
  }

  lemma ActionFieldsPlaced(T: Table, s: State, a: nat, w: Token, t: State)
    requires InTable(T, w) && Member(T, ActionFieldsOf(a), w)
    requires Placed(T, s, [ActionFieldsOf(a)]) && Call(T, s, w) == Some(t)
    ensures Placed(T, t, Next(T, w))
  {
    hide BufferSound;
  }

  lemma RssFieldsPlaced(T: Table, s: State, w: Token, t: State)
    requires InTable(T, w) && Member(T, RssFields, w)
    requires Placed(T, s, [RssFields]) && Call(T, s, w) == Some(t)
    ensures Placed(T, t, Next(T, w))
  {
    hide BufferSound, ParseVc, ParseIds, ParseVcSpec, ParseValue, StartCommand;
  }

  lemma IdListsPlaced(T: Table, s: State, home: List, w: Token, t: State)
    requires home.DestroyAttrs? || home.JustDestroyRule? || home.ListAttrs?
    requires Member(T, home, w) && Placed(T, s, [home]) && Call(T, s, w) == Some(t)
    ensures Placed(T, t, Next(T, w))
  {
    hide BufferSound;
  }

  lemma ActionEndPlaced(T: Table, s: State, home: List, t: State)
    requires Member(T, home, ActionEnd) && Placed(T, s, [home]) && Call(T, s, ActionEnd) == Some(t)
    ensures Placed(T, t, Next(T, ActionEnd))
  {
    assert home.NextAction? && s.out.patternSet && |s.out.items| > 0;
    hide BufferSound, Allocate;
    AllocateSound(T, s, ActionEnd, 0, t);
  }

  /** Every word of a bottom list leaves the buffer as the lists it pushes expect it. */
  lemma HomeWordPlaced(T: Table, s: State, home: List, w: Token, t: State)
    requires InTable(T, w) && Member(T, home, w) && !Leaf(home)
    requires Placed(T, s, [home]) && Call(T, s, w) == Some(t)
    ensures Placed(T, t, Next(T, w))
  {
    if w == ActionEnd {
      ActionEndPlaced(T, s, home, t);
      return;
    }
    hide Placed, Call, Next, InTable;
    match home
    case FlowOnly => FlowPlaced(T, s, t);
    case Top => TopPlaced(T, s, w, t);
    case VcAttrs => if w.Pattern? { PatternPlaced(T, s, t); } else { AttrPlaced(T, s, w, t); }
    case NextItem => ItemPlaced(T, s, w, t);
    case FieldsOf(i) => FieldsPlaced(T, s, i, w, t);
    case JustActions => ActionsPlaced(T, s, t);
    case NextAction => ActionPlaced(T, s, w, t);
    case ActionFieldsOf(a) => ActionFieldsPlaced(T, s, a, w, t);
    case RssFields => RssFieldsPlaced(T, s, w, t);
    case DestroyAttrs | JustDestroyRule | ListAttrs => IdListsPlaced(T, s, home, w, t);
  }

  // ---------------------------------------------------------------- leaf words and the buffer

  lemma ParamCall(T: Table, s: State, w: Token, u: State)
    requires w.ItemParam? && Call(T, s, w) == Some(u)
    ensures SameLayout(s.out, u.out) && u.started == s.started && u.dataSize == s.dataSize
    ensures InThird(u, s.dataSize / 3)
  {}

  /** An item's data and buffer, when its fields are at the bottom of the stack. */
  predicate ItemHome(T: Table, s: State, i: nat) {
    && s.started && i < |T.items| && s.dataSize == 3 * T.items[i].size && s.out.command.Some?
    && BufferSound(T, s.out) && RowBlock(s.out, true, 3 * T.items[i].size)
  }

  lemma PlacedItemHome(T: Table, s: State)
    requires s.next != [] && Placed(T, s, s.next)
    ensures s.next[|s.next| - 1].ItemParams? || s.next[|s.next| - 1].RawParams? ==> s.next[0].FieldsOf?
    ensures s.next[0].FieldsOf? ==> ItemHome(T, s, s.next[0].i)
  {
    hide BufferSound, RowBlock;
  }

  lemma ItemHomePlaced(T: Table, u: State, next: seq<List>, i: nat)
    requires ItemHome(T, u, i) && InThird(u, T.items[i].size)
    requires |next| == 2 && next[0] == FieldsOf(i) && next[1].Value?
    ensures Placed(T, u, next)
  {
    hide BufferSound, RowBlock;
  }

  lemma ItemHomeCongruent(T: Table, s: State, u: State, i: nat)
    requires ItemHome(T, s, i) && SameLayout(s.out, u.out) && u.started == s.started && u.dataSize == s.dataSize
    ensures ItemHome(T, u, i) && s.dataSize / 3 == T.items[i].size
  {
    LayoutCongruent(T, s.out, u.out);
    hide BufferSound;
  }

  lemma ParamPlaced(T: Table, s: State, u: State, next: seq<List>)
    requires |s.next| == 3 && (s.next[2].ItemParams? || s.next[2].RawParams?)
    requires |next| == 2 && next[0] == s.next[0] && next[1].Value?
    requires Placed(T, s, s.next)
    requires SameLayout(s.out, u.out) && u.started == s.started && u.dataSize == s.dataSize && InThird(u, s.dataSize / 3)
    ensures Placed(T, u, next)
  {
    hide *;
    PlacedItemHome(T, s);
    ItemHomeCongruent(T, s, u, s.next[0].i);
    ItemHomePlaced(T, u, next, s.next[0].i);
  }

  /** A value is taken: what is below was placed for the same object. */
  lemma ValuePlaced(T: Table, s: State, u: State, next: seq<List>)
    requires s.next != [] && s.next[|s.next| - 1].Value? && next == s.next[..|s.next| - 1]
    requires s.next[0].Value? || |s.next| == 2
    requires Placed(T, s, s.next) && u == s.(args := u.args)
    requires |s.next| >= 2 && s.next[0].Value? ==> forall k | 0 <= k < |s.next| :: s.next[k].Value?
    ensures Placed(T, u, next)
  {
    hide BufferSound;
  }

  lemma RssWordPlaced(T: Table, s: State, u: State, next: seq<List>)
    requires |s.next| == 2 && (s.next[1].RssTypeList? || s.next[1].RssQueueList? || s.next[1].RssFuncs?)
    requires (next == s.next || next == s.next[..1]) && u.counter <= RSS_QUEUE_NUM
    requires Placed(T, s, s.next) && u.out == s.out && u.started == s.started && u.obj == s.obj && u.objmask == s.objmask
    ensures Placed(T, u, next)
  {
    hide BufferSound;
  }

  lemma ShapeFacts(next: seq<List>, args: seq<Arg>)
    requires StacksOk(next, args) && next != []
    ensures |next| <= 3
    ensures next[|next| - 1].ItemParams? || next[|next| - 1].RawParams? ==> |next| == 3 && next[1].Value?
    ensures next[|next| - 1].Value? ==> next[0].Value? || |next| == 2
    ensures next[0].Value? ==> forall k | 0 <= k < |next| :: next[k].Value?
    ensures next[|next| - 1].RssTypeList? || next[|next| - 1].RssQueueList? || next[|next| - 1].RssFuncs? ==> |next| == 2
  {}

  lemma LeafMembers(T: Table, l: List, w: Token)
    requires Member(T, l, w)
    ensures w.ItemParam? ==> l.ItemParams? || l.RawParams?
    ensures w.Val? ==> l.Value?
    ensures w.RssFuncName? || w.RssType? || w.RssQueue? ==> l.RssTypeList? || l.RssQueueList? || l.RssFuncs?
  {}

  lemma LeafCallOut(T: Table, s: State, u: State, w: Token)
    requires InTable(T, w) && LeafToken(w) && Call(T, s, w) == Some(u)
    ensures u.started == s.started && u.dataSize == s.dataSize
    ensures !w.ItemParam? ==> u.out == s.out && u.obj == s.obj && u.objmask == s.objmask
    ensures s.counter <= RSS_QUEUE_NUM ==> u.counter <= RSS_QUEUE_NUM
    ensures w.Val? ==> u == s.(args := u.args)
  {}

  lemma PlacedRss(T: Table, s: State)
    requires Placed(T, s, s.next) && s.next != []
    ensures s.next[|s.next| - 1].RssTypeList? || s.next[|s.next| - 1].RssQueueList? || s.next[|s.next| - 1].RssFuncs? ==>
              s.counter <= RSS_QUEUE_NUM
  {}

  /** After a leaf word the buffer still suits what is left pending. */
  lemma LeafWordPlaced(T: Table, s: State, u: State, w: Token)
    requires StacksOk(s.next, s.args) && s.next != [] && Member(T, s.next[|s.next| - 1], w)
    requires InTable(T, w) && LeafToken(w) && Call(T, s, w) == Some(u) && u.next != []
    requires Placed(T, s, s.next)
    ensures Placed(T, u, u.next[..|u.next| - 1])
  {
    hide *;
    var n := |s.next|;
    LeafCallFacts(T, s, u, w);
    LeafCallOut(T, s, u, w);
    ShapeFacts(s.next, s.args);
    LeafMembers(T, s.next[n - 1], w);
    LeafTokenCases(w);
    PlacedRss(T, s);
    if w.ItemParam? {
      ParamCall(T, s, w, u);
      ParamPlaced(T, s, u, u.next[..|u.next| - 1]);
    } else if w.Val? {
      ValuePlaced(T, s, u, u.next[..|u.next| - 1]);
    } else {
      assert u.next[..|u.next| - 1] == s.next || u.next[..|u.next| - 1] == s.next[..1];
      RssWordPlaced(T, s, u, u.next[..|u.next| - 1]);
    }
  }

  lemma LeafTokenCases(w: Token)
    requires LeafToken(w)
    ensures w.ItemParam? || w.RssFuncName? || w.RssType? || w.RssQueue? || w.Val?
  {}

  /** After a leaf word the descriptors left still fit. */
  lemma LeafWordArgsFit(T: Table, s: State, u: State, w: Token)
    requires StacksOk(s.next, s.args) && s.next != [] && Member(T, s.next[|s.next| - 1], w)
    requires InTable(T, w) && LeafToken(w) && Call(T, s, w) == Some(u) && u.next != []
    requires ArgsFit(T, s.next, s.args) && StacksOk(u.next[..|u.next| - 1], u.args)
    requires Placed(T, s, s.next)
    ensures ArgsFit(T, u.next[..|u.next| - 1], u.args)
  {
    hide *;
    var n := |s.next|;
    var next := u.next[..|u.next| - 1];
    LeafCallFacts(T, s, u, w);
    ShapeFacts(s.next, s.args);
    LeafMembers(T, s.next[n - 1], w);
    LeafTokenCases(w);
    if next != [] && u.args != [] {
      ArgsNeedValue(next, u.args);
      assert forall a | a in u.args :: a in s.args;
      PlacedParams(T, s);
      assert next[0] == s.next[0];
      SameRoom(T, s.next, next, s.args, u.args);
    }
    NoArgsFit(T, next, u.args);
  }

  lemma PlacedParams(T: Table, s: State)
    requires Placed(T, s, s.next) && s.next != []
    ensures s.next[|s.next| - 1].ItemParams? || s.next[|s.next| - 1].RawParams? ==> s.next[0].FieldsOf?
  {}

  lemma NoArgsFit(T: Table, next: seq<List>, args: seq<Arg>)
    requires next == [] || args == [] || ArgsFit(T, next, args)
    ensures ArgsFit(T, next, args)
  {}

  lemma ArgsNeedValue(next: seq<List>, args: seq<Arg>)
    requires StacksOk(next, args) && args != []
    ensures next != [] && (next[0].Value? || (|next| >= 2 && next[1].Value?))
  {
    if |next| == 1 { assert next[..0] == [] && (next[0].Value? || Matched(next[..0], args)); }
    if |next| == 2 {
      assert next[..1][..0] == [];
      assert next[1].Value? || Matched(next[..1], args);
      assert next[1].Value? || next[0].Value? || Matched(next[..1][..0], args);
    }
  }

  /** The room for pending values does not shrink when a leaf goes. */
  lemma SameRoom(T: Table, next: seq<List>, next': seq<List>, args: seq<Arg>, args': seq<Arg>)
    requires next != [] && next' != [] && next'[0] == next[0]
    requires next[0].Value? || (next[0].FieldsOf?)
    requires ArgsFit(T, next, args) && forall a | a in args' :: a in args
    ensures ArgsFit(T, next', args')
  {}

  // ---------------------------------------------------------------- every run

  lemma InvIntro(T: Table, s: State)
    requires StacksOk(s.next, s.args) && s.started && Placed(T, s, s.next) && ArgsFit(T, s.next, s.args)
    ensures Inv(T, s)
  {}

  lemma InvElim(T: Table, s: State)
    requires Inv(T, s)
    ensures StacksOk(s.next, s.args) && Placed(T, s, s.next) && ArgsFit(T, s.next, s.args)
    ensures !s.started ==> s.next == [] && s.out == NoOut
  {}

  /** The state in which the word is matched: a fresh context first expects `flow`. */
  lemma Opened(T: Table, s0: State, s: State)
    requires Inv(T, s0) && (s0.next == [] ==> !s0.started)
    requires s == if s0.next == [] then s0.(started := true, next := [FlowOnly]) else s0
    ensures StacksOk(s.next, s.args) && Placed(T, s, s.next) && ArgsFit(T, s.next, s.args) && s.started
  {
    OneListMatches(FlowOnly);
    hide Matched;
    StartMatches();
  }

  lemma CallKeepsStarted(T: Table, s: State, w: Token, u: State)
    requires InTable(T, w) && Call(T, s, w) == Some(u)
    ensures u.started == s.started
  {
    hide *;
    if LeafToken(w) {
      LeafCallOut(T, s, u, w);
    } else {
      HomeCallKeeps(T, s, u, w);
    }
  }

  lemma PlacedCongruent(T: Table, u: State, t: State, next: seq<List>)
    requires Placed(T, u, next) && t == u.(next := t.next, args := t.args)
    ensures Placed(T, t, next) && t.started == u.started
  {
    hide OutFor, ObjectFor;
    ObjectCongruent(T, u, t);
  }

  lemma ObjectCongruent(T: Table, u: State, t: State)
    requires t == u.(next := t.next, args := t.args)
    ensures forall home, top :: ObjectFor(T, t, home, top) == ObjectFor(T, u, home, top)
  {}

  /** Main step: an accepted word keeps the whole invariant. */
  lemma StepKeepsInv(T: Table, s0: State, w: Token)
    requires TableOk(T) && Inv(T, s0) && Step(T, s0, w).Some?
    ensures Inv(T, Step(T, s0, w).value)
  {
    hide *;
    InvElim(T, s0);
    StepKeepsStacks(T, s0, w);
    var s, u := StepInversion(T, s0, w);
    var t := Step(T, s0, w).value;
    Opened(T, s0, s);
    CallKeepsStarted(T, s, w, u);
    LeafTokens(T, s.next[|s.next| - 1], w);
    if LeafToken(w) {
      LeafWordKeepsStacks(T, s, u, w);
      LeafWordPlaced(T, s, u, w);
      LeafWordArgsFit(T, s, u, w);
      LeafRowFacts(T, w);
      assert t.next == u.next[..|u.next| - 1] && t.args == u.args;
    } else {
      NothingElsePending(s.next, s.args);
      HomeCallFacts(T, s, u, w);
      assert s.next == [s.next[0]];
      HomeWordPlaced(T, s, s.next[0], w, u);
      RowArgsFit(T, w);
      assert t.next == Next(T, w) && t.args == Args(T, w);
    }
    PlacedCongruent(T, u, t, t.next);
    InvIntro(T, t);
  }

  lemma FreshInv(T: Table)
    ensures Inv(T, Fresh())
  {}

  /** A state some accepted command prefix leads to. */
  ghost predicate Reachable(T: Table, s: State) {
    exists ws :: Run(T, Fresh(), ws) == Some(s)
  }

  lemma {:induction false} RunKeepsInv(T: Table, s: State, ws: seq<Token>)
    requires TableOk(T) && Inv(T, s) && Run(T, s, ws).Some?
    ensures Inv(T, Run(T, s, ws).value)
    decreases |ws|
  {
    hide Inv, Step;
    if ws != [] {
      StepKeepsInv(T, s, ws[0]);
      RunKeepsInv(T, Step(T, s, ws[0]).value, ws[1..]);
    }
  }

  lemma ReachableInv(T: Table, s: State)
    requires TableOk(T) && Reachable(T, s)
    ensures Inv(T, s)
  {
    hide Inv;
    var ws :| Run(T, Fresh(), ws) == Some(s);
    FreshInv(T);
    RunKeepsInv(T, Fresh(), ws);
  }

  function PopsOf(l: List): nat {
    if l.Value? then Pops(l.kind) else 0
  }

  lemma DemandSnoc(next: seq<List>, l: List)
    ensures Demand(next + [l]) == Demand(next) + PopsOf(l)
  {
    assert (next + [l])[..|next + [l]| - 1] == next;
  }

  lemma DemandOfShape(next: seq<List>)
    requires Shape(next)
    ensures Demand(next) <= 3
  {
    hide Demand;
    assert Demand([]) == 0 by { DemandEmpty(); }
    if |next| >= 1 { DemandSnoc([], next[0]); assert [] + [next[0]] == [next[0]]; }
    if |next| == 1 { assert next == [next[0]]; }
    if |next| >= 2 { DemandSnoc([next[0]], next[1]); assert [next[0]] + [next[1]] == [next[0], next[1]]; }
    if |next| == 2 { assert next == [next[0], next[1]]; }
    if |next| == 3 { DemandSnoc([next[0], next[1]], next[2]); assert next == [next[0], next[1]] + [next[2]]; }
  }

  lemma DemandEmpty()
    ensures Demand([]) == 0
  {}

  lemma DemandBound(next: seq<List>, args: seq<Arg>)
    requires StacksOk(next, args)
    ensures |next| <= 3 && |args| == Demand(next) <= 3
  {
    hide Matched, Demand;
    MatchedDemand(next, args);
    DemandOfShape(next);
  }

  /** Main result on the stacks: in every state reached by accepted words the argument stack
      holds exactly what the pending lists will pop, and neither stack exceeds three entries,
      so the 16-slot overflow checks never fire. */
  lemma StacksOverEveryRun(T: Table, s: State)
    requires TableOk(T) && Reachable(T, s)
    ensures |s.args| == Demand(s.next)
    ensures |s.next| <= 3 && |s.args| <= 3
  {
    hide *;
    ReachableInv(T, s);
    InvElim(T, s);
    DemandBound(s.next, s.args);
  }

  lemma MatchedTop(next: seq<List>, args: seq<Arg>, k: Kind)
    requires StacksOk(next, args) && next != [] && next[|next| - 1] == Value(k)
    ensures Feeds(k, args)
  {}

  lemma ValueStep(T: Table, s: State, k: Kind, t: Input)
    requires s.next != [] && s.next[|s.next| - 1] == Value(k) && Feeds(k, s.args) && |s.next| <= 3 && |s.args| <= 3
    ensures Step(T, s, Val(k, t)).Some? <==> TextOk(k, s.args, t)
  {
    hide TextOk;
  }

  /** Main result on values: whenever a value is expected, its parser finds descriptors, and
      of a shape it supports; whether it is taken depends on the text alone. */
  lemma ValuesFindTheirDescriptors(T: Table, s: State, k: Kind, t: Input)
    requires TableOk(T) && Reachable(T, s) && s.next != [] && s.next[|s.next| - 1] == Value(k)
    ensures Feeds(k, s.args)
    ensures Step(T, s, Val(k, t)).Some? <==> TextOk(k, s.args, t)
  {
    hide *;
    ReachableInv(T, s);
    InvElim(T, s);
    MatchedTop(s.next, s.args, k);
    DemandBound(s.next, s.args);
    ValueStep(T, s, k, t);
  }

  lemma EndsOnBottomList(s: State)
    requires Complete(s) && s.next != []
    ensures !Leaf(s.next[|s.next| - 1])
  {}

  lemma NothingPendingMatches(next: seq<List>, args: seq<Arg>)
    requires StacksOk(next, args) && next == []
    ensures args == []
  {}

  /** When no further word is asked for, every descriptor has been used. */
  lemma CompleteLeavesNothing(T: Table, s: State)
    requires TableOk(T) && Reachable(T, s) && Complete(s)
    ensures s.args == []
  {
    hide *;
    ReachableInv(T, s);
    InvElim(T, s);
    if s.next == [] {
      NothingPendingMatches(s.next, s.args);
    } else {
      EndsOnBottomList(s);
      NothingElsePending(s.next, s.args);
    }
  }

  // ---------------------------------------------------------------- where values are written

  lemma {:induction false} BlocksDescend(top: int, blocks: seq<Block>, data: int, i: nat, j: nat)
    requires BlocksOk(top, blocks, data) && i < j < |blocks|
    ensures blocks[j].addr + blocks[j].len <= blocks[i].addr
    decreases j - i
  {
    assert Ceiling(top, blocks, j) == blocks[j - 1].addr;
    if i + 1 < j { BlocksDescend(top, blocks, data, i, j - 1); }
  }

  lemma BlockInside(top: int, blocks: seq<Block>, data: int, i: nat)
    requires BlocksOk(top, blocks, data) && i < |blocks|
    ensures data <= blocks[i].addr && blocks[i].addr + blocks[i].len <= top
  {
    var n := |blocks|;
    if i > 0 { BlocksDescend(top, blocks, data, 0, i); }
    if i < n - 1 { BlocksDescend(top, blocks, data, i, n - 1); }
    assert blocks[0].addr + blocks[0].len <= Ceiling(top, blocks, 0);
  }

  /** Items and actions lie between the header and the data blocks, which are aligned, inside
      the buffer and pairwise disjoint. */
  predicate LaidOut(T: Table, o: Out) {
    && T.base + T.bufferSize <= o.pattern && o.pattern % 8 == 0
    && (|o.items| > 0 ==> o.pattern + ITEM_SIZE * |o.items| <= o.data)
    && (o.actionsSet ==> o.actions == o.pattern + ITEM_SIZE * |o.items|)
    && (|o.acts| > 0 ==> o.actions + ACTION_SIZE * |o.acts| <= o.data)
    && (forall k | 0 <= k < |o.blocks| :: o.blocks[k].addr % 8 == 0)
    && (forall k | 0 <= k < |o.blocks| ::
          o.data <= o.blocks[k].addr && o.blocks[k].addr + o.blocks[k].len <= T.base + T.size)
    && (forall i, j | 0 <= i < j < |o.blocks| :: o.blocks[j].addr + o.blocks[j].len <= o.blocks[i].addr)
  }

  lemma BlocksLaidOut(top: int, blocks: seq<Block>, data: int)
    requires BlocksOk(top, blocks, data)
    ensures forall k | 0 <= k < |blocks| :: data <= blocks[k].addr && blocks[k].addr + blocks[k].len <= top
    ensures forall i, j | 0 <= i < j < |blocks| :: blocks[j].addr + blocks[j].len <= blocks[i].addr
    ensures forall k | 0 <= k < |blocks| :: blocks[k].addr % 8 == 0
  {
    forall k | 0 <= k < |blocks| ensures data <= blocks[k].addr && blocks[k].addr + blocks[k].len <= top {
      BlockInside(top, blocks, data, k);
    }
    forall i, j | 0 <= i < j < |blocks| ensures blocks[j].addr + blocks[j].len <= blocks[i].addr {
      BlocksDescend(top, blocks, data, i, j);
    }
  }

  lemma CeilFacts(x: int)
    ensures x <= Ceil8(x) && Ceil8(x) % 8 == 0
  {}

  lemma SoundIsLaidOut(T: Table, o: Out)
    requires BufferSound(T, o) && o.patternSet
    ensures LaidOut(T, o)
  {
    hide Ceil8, BlocksOk;
    CeilFacts(T.base + T.bufferSize);
    BlocksLaidOut(T.base + T.size, o.blocks, o.data);
  }

  lemma PatternMeansSound(T: Table, s: State)
    requires Inv(T, s) && s.out.patternSet
    ensures BufferSound(T, s.out)
  {
    hide StacksOk, ArgsFit, BufferSound, IdsSound, ObjectFor;
  }

  /** Main result on the buffer: every reachable state of a rule, finished or not, is laid out
      soundly. */
  lemma LayoutOverEveryRun(T: Table, s: State)
    requires TableOk(T) && Reachable(T, s) && s.out.patternSet
    ensures LaidOut(T, s.out)
  {
    hide *;
    ReachableInv(T, s);
    PatternMeansSound(T, s);
    SoundIsLaidOut(T, s.out);
  }

  /** Bytes [lo, lo + n) of the object a value goes to, and what they lie in. */
  predicate InObject(T: Table, s: State, lo: int, n: nat)
    requires s.next != []
  {
    var o := s.out;
    match s.next[0]
    case FieldsOf(i) =>
      i < |T.items| && LastBlock(o, 3 * T.items[i].size) && o.data <= lo && lo + n <= o.data + 3 * T.items[i].size
    case ActionFieldsOf(a) =>
      a < |T.actions| && LastBlock(o, T.actions[a].size) && o.data <= lo && lo + n <= o.data + T.actions[a].size
    case RssFields => LastBlock(o, T.rssSize) && o.data <= lo && lo + n <= o.data + T.rssSize
    case DestroyAttrs | ListAttrs =>
      (T.base <= lo && lo + n <= T.base + T.bufferSize)
      || (o.ids <= lo && lo + n <= o.ids + ID_SIZE * o.idN <= T.base + T.size)
    case _ => T.base <= lo && lo + n <= T.base + T.bufferSize
  }

  lemma ObjectRoom(T: Table, s: State, k: Kind)
    requires TableOk(T) && Placed(T, s, s.next) && s.next != [] && s.next[|s.next| - 1] == Value(k)
    ensures var room := Room(T, s.next[0], Value(k));
            && InObject(T, s, s.obj, room)
            && (s.objmask.Some? ==>
                  s.next[0].FieldsOf? && InObject(T, s, s.objmask.value, room) && s.obj + room <= s.objmask.value)
  {
    hide BufferSound, FieldOk, RowOk;
  }

  lemma RoomToArg(T: Table, s: State, lo: int, room: nat, offset: nat, n: nat)
    requires s.next != [] && InObject(T, s, lo, room) && offset + n <= room
    ensures InObject(T, s, lo + offset, n)
  {}

  lemma ArgInRoom(T: Table, next: seq<List>, args: seq<Arg>, k: Kind, a: Arg)
    requires ArgsFit(T, next, args) && next != [] && next[|next| - 1] == Value(k) && a in args
    ensures a.offset + a.size <= Room(T, next[0], Value(k))
  {}

  /** Each descriptor a pending value is given selects bytes inside the object that is current: the
      header, the identifier slot, the action's configuration, or the selected third of the latest
      item's data; a full mask goes to a disjoint third. */
  lemma DescriptorsSelectInside(T: Table, s: State, k: Kind, a: Arg)
    requires TableOk(T) && Reachable(T, s)
    requires s.next != [] && s.next[|s.next| - 1] == Value(k) && a in s.args
    ensures InObject(T, s, s.obj + a.offset, a.size)
    ensures s.objmask.Some? ==>
              InObject(T, s, s.objmask.value + a.offset, a.size) && s.obj + a.offset + a.size <= s.objmask.value
  {
    hide *;
    ReachableInv(T, s);
    InvElim(T, s);
    ObjectRoom(T, s, k);
    ArgInRoom(T, s.next, s.args, k, a);
    RoomToArg(T, s, s.obj, Room(T, s.next[0], Value(k)), a.offset, a.size);
    if s.objmask.Some? {
      RoomToArg(T, s, s.objmask.value, Room(T, s.next[0], Value(k)), a.offset, a.size);
    }
  }

  /** Bytes from `lo` on, relative to an object. */
  datatype Span = Span(lo: nat, n: nat)

  function Whole(a: Arg): Span {
    Span(a.offset, a.size)
  }

  /** How far a copy of n bytes into a field reaches when the rest of the field is then cleared,
      the size of the rest being an unsigned int. */
  function CopyReach(n: nat, size: nat): nat {
    n + (size - n) % U32
  }

  /** What a value parser writes to the object: its field, and for strings and hex also the length
      and the address. */
  function Writes(k: Kind, args: seq<Arg>, t: Input): seq<Span>
    requires |args| >= Pops(k)
  {
    var n := |args|;
    var data := args[n - 1];
    if Pops(k) == 1 then [Whole(data)]
    else [Whole(args[n - 2]), Span(data.offset, CopyReach(if k.Hex? then HexBytes(t) else t.len, data.size)), Whole(args[n - 3])]
  }

  /** The same for the full mask: only the bytes of the text are set. */
  function MaskWrites(k: Kind, args: seq<Arg>, t: Input): seq<Span>
    requires |args| >= Pops(k)
  {
    var n := |args|;
    var data := args[n - 1];
    if Pops(k) == 1 then [Whole(data)]
    else [Whole(args[n - 2]), Span(data.offset, if k.Hex? then HexBytes(t) else t.len), Whole(args[n - 3])]
  }

  /** All writes of a value stay in the current object, and those of its mask in the mask, which the
      former do not touch. */
  predicate WritesInside(T: Table, s: State, k: Kind, t: Input)
    requires |s.args| >= Pops(k) && s.next != []
  {
    && (forall w | w in Writes(k, s.args, t) ::
          InObject(T, s, s.obj + w.lo, w.n) && (s.objmask.Some? ==> s.obj + w.lo + w.n <= s.objmask.value))
    && (s.objmask.Some? ==>
          forall w | w in MaskWrites(k, s.args, t) :: InObject(T, s, s.objmask.value + w.lo, w.n))
  }

  /** Clearing the rest of a field ends at the field's end exactly when the text fits. */
  lemma ReachIs(n: nat, size: nat)
    requires n < U32 && size < U32
    ensures CopyReach(n, size) == if n <= size then size else size + U32
  {
    if n <= size { DivMod(size - n, U32, 0, size - n); }
  }

  lemma RowsAreSmall(T: Table)
    requires TableOk(T)
    ensures T.size < U32 && T.bufferSize < U32 && T.rssSize < U32
    ensures forall i | 0 <= i < |T.items| :: 3 * T.items[i].size < U32
    ensures forall a | 0 <= a < |T.actions| :: T.actions[a].size < U32
  {
    hide FieldOk;
    forall i | 0 <= i < |T.items| ensures 3 * T.items[i].size < U32 {
      assert T.items[i] in T.items && RowOk(T.items[i]);
    }
    forall a | 0 <= a < |T.actions| ensures T.actions[a].size < U32 {
      assert T.actions[a] in T.actions && RowOk(T.actions[a]);
    }
  }

  lemma IdsAbove(T: Table, o: Out)
    requires IdsSound(T, o)
    ensures o.ids >= T.base
  {
    CeilFacts(T.base + T.bufferSize);
    hide Ceil8;
  }

  lemma IdsPlaced(T: Table, s: State)
    requires s.next != [] && Placed(T, s, s.next)
    ensures s.next[0].DestroyAttrs? || s.next[0].ListAttrs? ==> IdsSound(T, s.out)
  {
    hide IdsSound, BufferSound;
  }

  /** No object is as large as 2^32 bytes. */
  lemma ObjectIsSmall(T: Table, s: State, lo: int, n: nat)
    requires TableOk(T) && s.next != [] && Placed(T, s, s.next) && InObject(T, s, lo, n)
    ensures n < U32
  {
    RowsAreSmall(T);
    IdsPlaced(T, s);
    if IdsSound(T, s.out) { IdsAbove(T, s.out); }
    hide TableOk, Placed, IdsSound, LastBlock;
  }

  lemma InsideNarrower(T: Table, s: State, lo: int, n: nat, m: nat)
    requires s.next != [] && InObject(T, s, lo, n) && m <= n
    ensures InObject(T, s, lo, m)
  {}

  /** The bytes of a string or of hex digits are few, and those of a string fit. */
  lemma TextLength(k: Kind, args: seq<Arg>, t: Input)
    requires Pops(k) == 3 && |args| >= 3 && TextOk(k, args, t)
    ensures k.Hex? ==> HexBytes(t) <= HEX_DIGITS / 2 < U32
    ensures !k.Hex? ==> t.len <= args[|args| - 1].size
  {}

  /** Pops of descriptors and the ones they are. */
  lemma ThreeArgs(k: Kind, args: seq<Arg>)
    requires |args| >= Pops(k)
    ensures Pops(k) == 1 || Pops(k) == 3
    ensures args[|args| - 1] in args && (Pops(k) == 3 ==> args[|args| - 2] in args && args[|args| - 3] in args)
  {}

  lemma WritesAre(k: Kind, args: seq<Arg>, t: Input)
    requires |args| >= Pops(k)
    ensures var n := |args|;
            var data := args[n - 1];
            var bytes := if k.Hex? then HexBytes(t) else t.len;
            && (Pops(k) == 1 ==> Writes(k, args, t) == MaskWrites(k, args, t) == [Whole(data)])
            && (Pops(k) == 3 ==>
                  && Writes(k, args, t) == [Whole(args[n - 2]), Span(data.offset, CopyReach(bytes, data.size)), Whole(args[n - 3])]
                  && MaskWrites(k, args, t) == [Whole(args[n - 2]), Span(data.offset, bytes), Whole(args[n - 3])])
  {
    hide CopyReach, HexBytes;
  }

  /** A write and the write to the mask that goes with it. */
  predicate WriteInside(T: Table, s: State, w: Span, m: Span)
    requires s.next != []
  {
    && InObject(T, s, s.obj + w.lo, w.n)
    && (s.objmask.Some? ==>
          s.obj + w.lo + w.n <= s.objmask.value && InObject(T, s, s.objmask.value + m.lo, m.n))
  }

  lemma AllInside(T: Table, s: State, k: Kind, t: Input, ws: seq<Span>, ms: seq<Span>)
    requires |s.args| >= Pops(k) && s.next != [] && ws == Writes(k, s.args, t) && ms == MaskWrites(k, s.args, t)
    requires |ws| == |ms|
    ensures WritesInside(T, s, k, t) <==> forall i | 0 <= i < |ws| :: WriteInside(T, s, ws[i], ms[i])
  {
    hide InObject, Writes, MaskWrites, Pops;
    if forall i | 0 <= i < |ws| :: WriteInside(T, s, ws[i], ms[i]) {
      forall w | w in ws
        ensures InObject(T, s, s.obj + w.lo, w.n) && (s.objmask.Some? ==> s.obj + w.lo + w.n <= s.objmask.value)
      {
        var i :| 0 <= i < |ws| && ws[i] == w;
        assert WriteInside(T, s, ws[i], ms[i]);
      }
      forall m | m in ms ensures s.objmask.Some? ==> InObject(T, s, s.objmask.value + m.lo, m.n) {
        var i :| 0 <= i < |ms| && ms[i] == m;
        assert WriteInside(T, s, ws[i], ms[i]);
      }
    }
    if WritesInside(T, s, k, t) {
      forall i | 0 <= i < |ws| ensures WriteInside(T, s, ws[i], ms[i]) {
        assert ws[i] in ws && ms[i] in ms;
      }
    }
  }

  lemma DescriptorInside(T: Table, s: State, k: Kind, a: Arg)
    requires TableOk(T) && Reachable(T, s)
    requires s.next != [] && s.next[|s.next| - 1] == Value(k) && a in s.args
    ensures WriteInside(T, s, Whole(a), Whole(a))
  {
    hide *;
    DescriptorsSelectInside(T, s, k, a);
    FieldInside(T, s, a);
  }

  lemma FieldInside(T: Table, s: State, a: Arg)
    requires s.next != [] && InObject(T, s, s.obj + a.offset, a.size)
    requires s.objmask.Some? ==>
               InObject(T, s, s.objmask.value + a.offset, a.size) && s.obj + a.offset + a.size <= s.objmask.value
    ensures WriteInside(T, s, Whole(a), Whole(a))
  {
    hide InObject;
  }

  lemma Narrower(T: Table, s: State, w: Span, m: Span, n: nat)
    requires s.next != [] && WriteInside(T, s, w, m) && n <= m.n
    ensures WriteInside(T, s, w, Span(m.lo, n))
  {
    if s.objmask.Some? { InsideNarrower(T, s, s.objmask.value + m.lo, m.n, n); }
    hide InObject;
  }

  lemma WriteIsSmall(T: Table, s: State, w: Span, m: Span)
    requires TableOk(T) && s.next != [] && Placed(T, s, s.next) && WriteInside(T, s, w, m)
    ensures w.n < U32
  {
    hide TableOk, Placed, InObject;
    ObjectIsSmall(T, s, s.obj + w.lo, w.n);
  }

  /** The data of a string or of hex stays inside exactly when it fits its field. */
  lemma DataInsideIff(T: Table, s: State, k: Kind, bytes: nat)
    requires TableOk(T) && Reachable(T, s) && s.next != [] && s.next[|s.next| - 1] == Value(k) && s.args != []
    requires bytes < U32
    ensures var data := s.args[|s.args| - 1];
            (WriteInside(T, s, Span(data.offset, CopyReach(bytes, data.size)), Span(data.offset, bytes))
             <==> bytes <= data.size)
  {
    hide *;
    var data := s.args[|s.args| - 1];
    var reach, field := Span(data.offset, CopyReach(bytes, data.size)), Span(data.offset, bytes);
    ReachableInv(T, s);
    InvElim(T, s);
    DescriptorInside(T, s, k, data);
    WholeIs(data);
    WriteIsSmall(T, s, Whole(data), Whole(data));
    ReachIs(bytes, data.size);
    if bytes <= data.size {
      Narrower(T, s, Whole(data), Whole(data), bytes);
    } else if WriteInside(T, s, reach, field) {
      WriteIsSmall(T, s, reach, field);
    }
  }

  lemma WholeIs(a: Arg)
    ensures Whole(a) == Span(a.offset, a.size) && U32 > 0
  {}

  lemma OneWriteInside(T: Table, s: State, k: Kind, t: Input)
    requires TableOk(T) && Reachable(T, s) && s.next != [] && s.next[|s.next| - 1] == Value(k)
    requires |s.args| >= Pops(k) == 1
    ensures WritesInside(T, s, k, t)
  {
    hide *;
    WritesAre(k, s.args, t);
    var data := s.args[|s.args| - 1];
    AllInside(T, s, k, t, [Whole(data)], [Whole(data)]);
    DescriptorInside(T, s, k, data);
  }

  lemma ThreeInsideIff(T: Table, s: State, k: Kind, t: Input, len: Span, reach: Span, field: Span, addr: Span)
    requires |s.args| >= Pops(k) && s.next != []
    requires Writes(k, s.args, t) == [len, reach, addr] && MaskWrites(k, s.args, t) == [len, field, addr]
    requires WriteInside(T, s, len, len) && WriteInside(T, s, addr, addr)
    ensures WritesInside(T, s, k, t) <==> WriteInside(T, s, reach, field)
  {
    AllInside(T, s, k, t, [len, reach, addr], [len, field, addr]);
    hide WriteInside, WritesInside, Writes, MaskWrites, Pops;
    if WritesInside(T, s, k, t) {
      assert WriteInside(T, s, [len, reach, addr][1], [len, field, addr][1]);
    }
  }

  lemma OuterSpansInside(T: Table, s: State, k: Kind)
    requires TableOk(T) && Reachable(T, s) && s.next != [] && s.next[|s.next| - 1] == Value(k)
    requires |s.args| >= Pops(k) == 3
    ensures var len, addr := s.args[|s.args| - 2], s.args[|s.args| - 3];
            WriteInside(T, s, Whole(len), Whole(len)) && WriteInside(T, s, Whole(addr), Whole(addr))
  {
    hide *;
    DescriptorInside(T, s, k, s.args[|s.args| - 2]);
    DescriptorInside(T, s, k, s.args[|s.args| - 3]);
  }

  lemma ThreeWritesInside(T: Table, s: State, k: Kind, t: Input, bytes: nat)
    requires TableOk(T) && Reachable(T, s) && s.next != [] && s.next[|s.next| - 1] == Value(k)
    requires |s.args| >= Pops(k) == 3 && bytes == (if k.Hex? then HexBytes(t) else t.len) < U32
    ensures WritesInside(T, s, k, t) <==> bytes <= s.args[|s.args| - 1].size
  {
    hide *;
    var n := |s.args|;
    var data, len, addr := s.args[n - 1], s.args[n - 2], s.args[n - 3];
    OuterSpansInside(T, s, k);
    DataInsideIff(T, s, k, bytes);
    WritesAre(k, s.args, t);
    ThreeInsideIff(T, s, k, t, Whole(len), Span(data.offset, CopyReach(bytes, data.size)), Span(data.offset, bytes), Whole(addr));
  }

  /** Main result on writes: what an accepted value writes stays inside the object it is for, except
      hex that makes more bytes than its field has; exactly then. */
  lemma WritesStayInObject(T: Table, s: State, k: Kind, t: Input)
    requires TableOk(T) && Reachable(T, s) && s.next != [] && s.next[|s.next| - 1] == Value(k)
    requires Step(T, s, Val(k, t)).Some?
    ensures |s.args| >= Pops(k)
    ensures WritesInside(T, s, k, t) <==> (k.Hex? ==> HexBytes(t) <= s.args[|s.args| - 1].size)
  {
    hide *;
    ValuesFindTheirDescriptors(T, s, k, t);
    FeedsArgs(k, s.args);
    ThreeArgs(k, s.args);
    OneIsNotHex(k);
    if Pops(k) == 1 {
      OneWriteInside(T, s, k, t);
    } else {
      ReachableInv(T, s);
      InvElim(T, s);
      DescriptorInside(T, s, k, s.args[|s.args| - 1]);
      WholeIs(s.args[|s.args| - 1]);
      WriteIsSmall(T, s, Whole(s.args[|s.args| - 1]), Whole(s.args[|s.args| - 1]));
      TextLength(k, s.args, t);
      ThreeWritesInside(T, s, k, t, if k.Hex? then HexBytes(t) else t.len);
    }
  }

  lemma FeedsArgs(k: Kind, args: seq<Arg>)
    requires Feeds(k, args)
    ensures |args| >= Pops(k)
  {}

  lemma OneIsNotHex(k: Kind)
    ensures Pops(k) == 1 ==> !k.Hex?
  {}

  lemma QueuePlaced(T: Table, s: State)
    requires Placed(T, s, s.next) && s.next != [] && s.next[|s.next| - 1].RssQueueList?
    ensures s.next[0] == RssFields && s.obj == s.out.data && LastBlock(s.out, T.rssSize)
  {
    hide BufferSound;
  }

  lemma QueueCount(T: Table, s: State)
    requires s.next != [] && Step(T, s, RssQueue(false)).Some?
    ensures s.counter < RSS_QUEUE_NUM
  {}

  lemma QueueRoom(T: Table, s: State)
    requires TableOk(T) && s.counter < RSS_QUEUE_NUM
    requires s.next != [] && s.next[0] == RssFields && s.obj == s.out.data && LastBlock(s.out, T.rssSize)
    ensures InObject(T, s, s.obj + T.rssQueues + QUEUE_SIZE * s.counter, QUEUE_SIZE)
  {
    hide FieldOk, RowOk;
  }

  /** The queue indices of an RSS action stay inside its configuration, however many are given. */
  lemma QueueWritesStayInObject(T: Table, s: State)
    requires TableOk(T) && Reachable(T, s) && s.next != [] && s.next[|s.next| - 1].RssQueueList?
    requires Step(T, s, RssQueue(false)).Some?
    ensures InObject(T, s, s.obj + T.rssQueues + QUEUE_SIZE * s.counter, QUEUE_SIZE)
  {
    hide *;
    ReachableInv(T, s);
    InvElim(T, s);
    QueuePlaced(T, s);
    QueueCount(T, s);
    QueueRoom(T, s);
  }
}
