/** The language of the flow commands, as the testpmd guide lists them: which sequences of words are
  complete commands.  The parser's stack of lists is proved to accept this language.
 */
module FlowGrammar {
  import opened FlowParser
  import opened Wrappers

  predicate IsVal(w: Token, k: Kind) {
    w.Val? && w.kind == k
  }

  /** flow, and a command. */
  predicate Line(T: Table, ws: seq<Token>) {
    ws != [] && ws[0] == Flow && Command(T, ws[1..])
  }

  predicate Command(T: Table, ws: seq<Token>)
    decreases |ws|
  {
    && |ws| >= 2 && IsVal(ws[1], PortId)
    && match ws[0]
       case Validate | Create => Attributes(T, ws[2..])
       case Destroy => ws[2..] != [] && Identifiers(DestroyRule, RuleId, ws[2..])
       case Flush => |ws| == 2
       case Query => |ws| == 4 && IsVal(ws[2], RuleId) && IsVal(ws[3], ActionName)
       case ListRules => Identifiers(ListGroup, GroupId, ws[2..])
       case Isolate => |ws| == 3 && IsVal(ws[2], Boolean)
       case _ => false
  }

  /** A word and an identifier, any number of times. */
  predicate Identifiers(w: Token, k: Kind, ws: seq<Token>)
    decreases |ws|
  {
    ws == [] || (|ws| >= 2 && ws[0] == w && IsVal(ws[1], k) && Identifiers(w, k, ws[2..]))
  }

  /** Attributes in any order, then the pattern. */
  predicate Attributes(T: Table, ws: seq<Token>)
    decreases |ws|
  {
    && ws != []
    && match ws[0]
       case Group => |ws| >= 2 && IsVal(ws[1], GroupId) && Attributes(T, ws[2..])
       case Priority => |ws| >= 2 && IsVal(ws[1], Level) && Attributes(T, ws[2..])
       case Ingress | Egress | Transfer => Attributes(T, ws[1..])
       case Pattern => Items(T, ws[1..])
       case _ => false
  }

  /** Items separated by slashes up to `end`, then the actions. */
  predicate Items(T: Table, ws: seq<Token>)
    decreases |ws|
  {
    && ws != []
    && match ws[0]
       case ItemEnd => |ws| >= 2 && ws[1] == Actions && ActionList(T, ws[2..])
       case Item(i) => i < |T.items| && ItemFields(T, i, ws[1..])
       case _ => false
  }

  /** Values of three descriptors, strings and hex, have no ranges and no prefixes. */
  predicate ParamOk(k: Kind, p: Param) {
    Pops(k) == 3 ==> p == Is || p == Spec || p == Mask
  }

  /** Field, parameter and value, any number of times, up to a slash. */
  predicate ItemFields(T: Table, i: nat, ws: seq<Token>)
    requires i < |T.items|
    decreases |ws|
  {
    && ws != []
    && match ws[0]
       case ItemNext => Items(T, ws[1..])
       case ItemField(j, f) =>
         j == i && f < |T.items[i].fields| && ItemValue(T, i, T.items[i].fields[f].kind, ws[1..])
       case _ => false
  }

  predicate ItemValue(T: Table, i: nat, k: Kind, ws: seq<Token>)
    requires i < |T.items|
    decreases |ws|
  {
    && |ws| >= 2 && ws[0].ItemParam? && ParamOk(k, ws[0].p)
    && IsVal(ws[1], if ws[0].p.Prefix? then PrefixLength else k) && ItemFields(T, i, ws[2..])
  }

  /** Actions separated by slashes up to `end`. */
  predicate ActionList(T: Table, ws: seq<Token>)
    decreases |ws|
  {
    && ws != []
    && match ws[0]
       case ActionEnd => |ws| == 1
       case Action(a) => a < |T.actions| && ActionFields(T, a, ws[1..])
       case Rss => RssWords(T, ws[1..])
       case _ => false
  }

  predicate ActionFields(T: Table, a: nat, ws: seq<Token>)
    requires a < |T.actions|
    decreases |ws|
  {
    && ws != []
    && match ws[0]
       case ActionNext => ActionList(T, ws[1..])
       case ActionField(b, f) =>
         && b == a && f < |T.actions[a].fields| && |ws| >= 2 && IsVal(ws[1], T.actions[a].fields[f].kind)
         && ActionFields(T, a, ws[2..])
       case _ => false
  }

  predicate RssWords(T: Table, ws: seq<Token>)
    decreases |ws|
  {
    && ws != []
    && match ws[0]
       case ActionNext => ActionList(T, ws[1..])
       case RssFunc => |ws| >= 2 && ws[1] == RssFuncName && RssWords(T, ws[2..])
       case RssLevel | RssKeyLen => |ws| >= 2 && IsVal(ws[1], Unsigned) && RssWords(T, ws[2..])
       case RssKey => |ws| >= 2 && IsVal(ws[1], Hex) && RssWords(T, ws[2..])
       case RssTypes => UpToEnd(T, RssType(false), RssType(true), ws[1..])
       case RssQueues => UpToEnd(T, RssQueue(false), RssQueue(true), ws[1..])
       case _ => false
  }

  /** Names or numbers up to their own `end`. */
  predicate UpToEnd(T: Table, w: Token, end: Token, ws: seq<Token>)
    decreases |ws|
  {
    ws != [] && if ws[0] == end then RssWords(T, ws[1..]) else ws[0] == w && UpToEnd(T, w, end, ws[1..])
  }

  // ---------------------------------------------------------------- lists and the rest of a line

  /** What may follow when this list is all that is pending. */
  predicate FromList(T: Table, l: List, ws: seq<Token>) {
    match l
    case FlowOnly => Line(T, ws)
    case Top => Command(T, ws)
    case VcAttrs => Attributes(T, ws)
    case DestroyAttrs => Identifiers(DestroyRule, RuleId, ws)
    case JustDestroyRule => ws != [] && Identifiers(DestroyRule, RuleId, ws)
    case ListAttrs => Identifiers(ListGroup, GroupId, ws)
    case NextItem => Items(T, ws)
    case FieldsOf(i) => i < |T.items| && ItemFields(T, i, ws)
    case JustActions => ws != [] && ws[0] == Actions && ActionList(T, ws[1..])
    case NextAction => ActionList(T, ws)
    case ActionFieldsOf(a) => a < |T.actions| && ActionFields(T, a, ws)
    case RssFields => RssWords(T, ws)
    case _ => false
  }

  /** What may follow when these lists are pending. */
  predicate Rest(T: Table, next: seq<List>, ws: seq<Token>)
    decreases |next|
  {
    if next == [] then ws == []
    else
      var n := |next| - 1;
      match next[n]
      case Value(k) => ws != [] && IsVal(ws[0], k) && Rest(T, next[..n], ws[1..])
      case ItemParams | RawParams =>
        && n == 2 && next[0].FieldsOf? && next[0].i < |T.items| && next[1].Value?
        && ItemValue(T, next[0].i, next[1].kind, ws)
      case RssFuncs => ws != [] && ws[0] == RssFuncName && Rest(T, next[..n], ws[1..])
      case RssTypeList => next[..n] == [RssFields] && UpToEnd(T, RssType(false), RssType(true), ws)
      case RssQueueList => next[..n] == [RssFields] && UpToEnd(T, RssQueue(false), RssQueue(true), ws)
      case l => n == 0 && FromList(T, l, ws)
  }

  lemma RestList(T: Table, l: List, ws: seq<Token>)
    requires !Leaf(l)
    ensures Rest(T, [l], ws) <==> FromList(T, l, ws)
  {
    hide FromList;
  }

  lemma RestValue(T: Table, next: seq<List>, k: Kind, ws: seq<Token>)
    ensures Rest(T, next + [Value(k)], ws) <==> ws != [] && IsVal(ws[0], k) && Rest(T, next, ws[1..])
  {
    assert (next + [Value(k)])[..|next|] == next;
  }

  lemma ListAndValue(T: Table, l: List, k: Kind, ws: seq<Token>)
    requires !Leaf(l)
    ensures Rest(T, [l, Value(k)], ws) <==> ws != [] && IsVal(ws[0], k) && FromList(T, l, ws[1..])
  {
    assert [l] + [Value(k)] == [l, Value(k)];
    RestValue(T, [l], k, ws);
    if ws != [] { RestList(T, l, ws[1..]); }
    hide FromList, Rest;
  }

  // ---------------------------------------------------------------- one word of a line

  /** A line from a word of this list on: the word, and what its row makes pending. */
  lemma FlowRest(T: Table, w: Token, rest: seq<Token>)
    requires w.Flow?
    ensures FromList(T, FlowOnly, [w] + rest) <==> Rest(T, Next(T, w), rest)
  {
    assert ([w] + rest)[1..] == rest;
    RestList(T, Top, rest);
    hide Command, Rest;
  }

  lemma Tails(w: Token, rest: seq<Token>)
    ensures ([w] + rest)[1..] == rest
    ensures rest != [] ==> ([w] + rest)[2..] == rest[1..] && ([w] + rest)[1] == rest[0]
  {}

  /** A command of values only. */
  lemma ValuesRest(T: Table, rest: seq<Token>)
    ensures Rest(T, [Value(PortId)], rest) <==> |rest| == 1 && IsVal(rest[0], PortId)
    ensures (Rest(T, [Value(Boolean), Value(PortId)], rest)
             <==> |rest| == 2 && IsVal(rest[0], PortId) && IsVal(rest[1], Boolean))
    ensures (Rest(T, [Value(ActionName), Value(RuleId), Value(PortId)], rest)
             <==> |rest| == 3 && IsVal(rest[0], PortId) && IsVal(rest[1], RuleId) && IsVal(rest[2], ActionName))
  {
    assert [] + [Value(PortId)] == [Value(PortId)] && [] + [Value(Boolean)] == [Value(Boolean)];
    assert [] + [Value(ActionName)] == [Value(ActionName)];
    assert [Value(Boolean)] + [Value(PortId)] == [Value(Boolean), Value(PortId)];
    assert [Value(ActionName)] + [Value(RuleId)] == [Value(ActionName), Value(RuleId)];
    assert [Value(ActionName), Value(RuleId)] + [Value(PortId)] == [Value(ActionName), Value(RuleId), Value(PortId)];
    RestValue(T, [], PortId, rest);
    RestValue(T, [Value(Boolean)], PortId, rest);
    RestValue(T, [Value(ActionName), Value(RuleId)], PortId, rest);
    if rest != [] {
      RestValue(T, [], Boolean, rest[1..]);
      RestValue(T, [Value(ActionName)], RuleId, rest[1..]);
      if |rest| >= 2 { RestValue(T, [], ActionName, rest[2..]); }
    }
    hide Rest;
    RestNothing(T);
  }

  lemma RestNothing(T: Table)
    ensures forall ws :: Rest(T, [], ws) <==> ws == []
  {}

  lemma ValueCommandRest(T: Table, w: Token, rest: seq<Token>)
    requires w.Flush? || w.Query? || w.Isolate?
    ensures Command(T, [w] + rest) <==> Rest(T, Next(T, w), rest)
  {
    Tails(w, rest);
    ValuesRest(T, rest);
    hide Rest, Attributes, Identifiers;
  }

  lemma ListCommandRest(T: Table, w: Token, rest: seq<Token>)
    requires w.Validate? || w.Create? || w.Destroy? || w.ListRules?
    ensures Command(T, [w] + rest) <==> Rest(T, Next(T, w), rest)
  {
    Tails(w, rest);
    ListAndValue(T, VcAttrs, PortId, rest);
    ListAndValue(T, JustDestroyRule, PortId, rest);
    ListAndValue(T, ListAttrs, PortId, rest);
    hide Rest, Attributes, Identifiers;
  }

  lemma TopRest(T: Table, w: Token, rest: seq<Token>)
    requires Member(T, Top, w) && InTable(T, w)
    ensures FromList(T, Top, [w] + rest) <==> Rest(T, Next(T, w), rest)
  {
    hide Rest, Command, Next;
    if w.Flush? || w.Query? || w.Isolate? { ValueCommandRest(T, w, rest); } else { ListCommandRest(T, w, rest); }
  }

  lemma AttrsRest(T: Table, w: Token, rest: seq<Token>)
    requires Member(T, VcAttrs, w) && InTable(T, w)
    ensures FromList(T, VcAttrs, [w] + rest) <==> Rest(T, Next(T, w), rest)
  {
    Tails(w, rest);
    ListAndValue(T, VcAttrs, GroupId, rest);
    ListAndValue(T, VcAttrs, Level, rest);
    RestList(T, VcAttrs, rest);
    RestList(T, NextItem, rest);
    hide Rest, Items;
  }

  lemma IdsRest(T: Table, l: List, w: Token, rest: seq<Token>)
    requires l.DestroyAttrs? || l.JustDestroyRule? || l.ListAttrs?
    requires Member(T, l, w) && InTable(T, w)
    ensures FromList(T, l, [w] + rest) <==> Rest(T, Next(T, w), rest)
  {
    Tails(w, rest);
    ListAndValue(T, DestroyAttrs, RuleId, rest);
    ListAndValue(T, ListAttrs, GroupId, rest);
    hide Rest;
  }

  lemma ItemsRest(T: Table, l: List, w: Token, rest: seq<Token>)
    requires l.NextItem? || l.JustActions?
    requires Member(T, l, w) && InTable(T, w)
    ensures FromList(T, l, [w] + rest) <==> Rest(T, Next(T, w), rest)
  {
    Tails(w, rest);
    RestList(T, JustActions, rest);
    RestList(T, NextAction, rest);
    if w.Item? { RestList(T, FieldsOf(w.i), rest); }
    hide Rest, ItemFields, ActionList;
  }

  lemma RestParam(T: Table, i: nat, k: Kind, l: List, rest: seq<Token>)
    requires i < |T.items| && (l.ItemParams? || l.RawParams?)
    ensures Rest(T, [FieldsOf(i), Value(k), l], rest) <==> ItemValue(T, i, k, rest)
  {
    hide ItemValue;
  }

  lemma FieldsRest(T: Table, i: nat, w: Token, rest: seq<Token>)
    requires Member(T, FieldsOf(i), w) && InTable(T, w) && i < |T.items|
    ensures FromList(T, FieldsOf(i), [w] + rest) <==> Rest(T, Next(T, w), rest)
  {
    Tails(w, rest);
    RestList(T, NextItem, rest);
    if w.ItemField? {
      var k := T.items[i].fields[w.f].kind;
      RestParam(T, i, k, if Pops(k) == 3 then RawParams else ItemParams, rest);
    }
    hide Rest, Items, ItemValue;
  }

  lemma ActionsRest(T: Table, w: Token, rest: seq<Token>)
    requires Member(T, NextAction, w) && InTable(T, w)
    ensures FromList(T, NextAction, [w] + rest) <==> Rest(T, Next(T, w), rest)
  {
    Tails(w, rest);
    RestNothing(T);
    RestList(T, RssFields, rest);
    if w.Action? { RestList(T, ActionFieldsOf(w.a), rest); }
    hide Rest, ActionFields, RssWords;
  }

  lemma ActionFieldsRest(T: Table, a: nat, w: Token, rest: seq<Token>)
    requires Member(T, ActionFieldsOf(a), w) && InTable(T, w) && a < |T.actions|
    ensures FromList(T, ActionFieldsOf(a), [w] + rest) <==> Rest(T, Next(T, w), rest)
  {
    Tails(w, rest);
    RestList(T, NextAction, rest);
    if w.ActionField? { ListAndValue(T, ActionFieldsOf(a), T.actions[a].fields[w.f].kind, rest); }
    hide Rest, ActionList;
  }

  lemma RestFuncs(T: Table, rest: seq<Token>)
    ensures Rest(T, [RssFields, RssFuncs], rest) <==> rest != [] && rest[0] == RssFuncName && RssWords(T, rest[1..])
  {
    assert [RssFields, RssFuncs][..1] == [RssFields];
    if rest != [] { RestList(T, RssFields, rest[1..]); }
    hide UpToEnd, RssWords;
  }

  lemma RestTypes(T: Table, rest: seq<Token>)
    ensures Rest(T, [RssFields, RssTypeList], rest) <==> UpToEnd(T, RssType(false), RssType(true), rest)
  {
    assert [RssFields, RssTypeList][..1] == [RssFields];
    hide UpToEnd;
  }

  lemma RestQueues(T: Table, rest: seq<Token>)
    ensures Rest(T, [RssFields, RssQueueList], rest) <==> UpToEnd(T, RssQueue(false), RssQueue(true), rest)
  {
    assert [RssFields, RssQueueList][..1] == [RssFields];
    hide UpToEnd;
  }

  lemma RssFuncRest(T: Table, rest: seq<Token>)
    ensures RssWords(T, [RssFunc] + rest) <==> Rest(T, [RssFields, RssFuncs], rest)
  {
    Tails(RssFunc, rest);
    RestFuncs(T, rest);
    hide Rest, ActionList, UpToEnd;
  }

  lemma RssListsRest(T: Table, rest: seq<Token>)
    ensures RssWords(T, [RssTypes] + rest) <==> Rest(T, [RssFields, RssTypeList], rest)
    ensures RssWords(T, [RssQueues] + rest) <==> Rest(T, [RssFields, RssQueueList], rest)
  {
    Tails(RssTypes, rest);
    Tails(RssQueues, rest);
    RestTypes(T, rest);
    RestQueues(T, rest);
    hide Rest, ActionList, UpToEnd;
  }

  lemma RssValueRest(T: Table, w: Token, rest: seq<Token>)
    requires w.RssLevel? || w.RssKeyLen? || w.RssKey?
    ensures RssWords(T, [w] + rest) <==> Rest(T, [RssFields, Value(if w.RssKey? then Hex else Unsigned)], rest)
  {
    Tails(w, rest);
    ListAndValue(T, RssFields, if w.RssKey? then Hex else Unsigned, rest);
    hide Rest, ActionList, UpToEnd;
  }

  lemma RssNextRest(T: Table, rest: seq<Token>)
    ensures RssWords(T, [ActionNext] + rest) <==> Rest(T, [NextAction], rest)
  {
    Tails(ActionNext, rest);
    RestList(T, NextAction, rest);
    hide Rest, ActionList, UpToEnd;
  }

  lemma RssRest(T: Table, w: Token, rest: seq<Token>)
    requires Member(T, RssFields, w) && InTable(T, w)
    ensures FromList(T, RssFields, [w] + rest) <==> Rest(T, Next(T, w), rest)
  {
    hide Rest, RssWords;
    match w
    case RssFunc => RssFuncRest(T, rest);
    case RssLevel | RssKeyLen | RssKey => RssValueRest(T, w, rest);
    case RssTypes | RssQueues => RssListsRest(T, rest);
    case ActionNext => RssNextRest(T, rest);
  }

  lemma HomeRest(T: Table, home: List, w: Token, rest: seq<Token>)
    requires !Leaf(home) && Member(T, home, w) && InTable(T, w)
    requires (home.FieldsOf? ==> home.i < |T.items|) && (home.ActionFieldsOf? ==> home.a < |T.actions|)
    ensures FromList(T, home, [w] + rest) <==> Rest(T, Next(T, w), rest)
  {
    hide Rest, FromList, Next, InTable;
    match home
    case FlowOnly => FlowRest(T, w, rest);
    case Top => TopRest(T, w, rest);
    case VcAttrs => AttrsRest(T, w, rest);
    case DestroyAttrs | JustDestroyRule | ListAttrs => IdsRest(T, home, w, rest);
    case NextItem | JustActions => ItemsRest(T, home, w, rest);
    case FieldsOf(i) => FieldsRest(T, i, w, rest);
    case NextAction => ActionsRest(T, w, rest);
    case ActionFieldsOf(a) => ActionFieldsRest(T, a, w, rest);
    case RssFields => RssRest(T, w, rest);
  }

  /** A value: the list above which it stood is next. */
  lemma ValRest(T: Table, next: seq<List>, w: Token, rest: seq<Token>)
    requires next != [] && next[|next| - 1].Value? && Member(T, next[|next| - 1], w)
    ensures Rest(T, next, [w] + rest) <==> Rest(T, next[..|next| - 1], rest)
  {
    Tails(w, rest);
    assert next == next[..|next| - 1] + [next[|next| - 1]];
    RestValue(T, next[..|next| - 1], next[|next| - 1].kind, [w] + rest);
    hide Rest;
  }

  lemma ParamRest(T: Table, i: nat, k: Kind, l: List, w: Token, rest: seq<Token>)
    requires i < |T.items| && (l.RawParams? || (l.ItemParams? && Pops(k) == 1)) && Member(T, l, w)
    ensures w.ItemParam?
    ensures (Rest(T, [FieldsOf(i), Value(k), l], [w] + rest)
             <==> Rest(T, [FieldsOf(i), Value(if w.p.Prefix? then PrefixLength else k)], rest))
  {
    Tails(w, rest);
    RestParam(T, i, k, l, [w] + rest);
    ListAndValue(T, FieldsOf(i), if w.p.Prefix? then PrefixLength else k, rest);
    hide Rest, ItemFields;
  }

  lemma RssLeafRest(T: Table, l: List, w: Token, rest: seq<Token>, next: seq<List>)
    requires l.RssFuncs? || l.RssTypeList? || l.RssQueueList?
    requires Member(T, l, w)
    requires next == if w == RssType(false) || w == RssQueue(false) then [RssFields, l] else [RssFields]
    ensures Rest(T, [RssFields, l], [w] + rest) <==> Rest(T, next, rest)
  {
    Tails(w, rest);
    RestList(T, RssFields, rest);
    hide Rest, RssWords;
    match l
    case RssFuncs => RestFuncs(T, [w] + rest);
    case RssTypeList =>
      RestTypes(T, [w] + rest);
      RestTypes(T, rest);
    case RssQueueList =>
      RestQueues(T, [w] + rest);
      RestQueues(T, rest);
  }

  /** The three shapes of a stack with a leaf list on top. */
  lemma LeafShape(T: Table, s: State)
    requires StacksOk(s.next, s.args) && s.next != [] && Leaf(s.next[|s.next| - 1]) && Placed(T, s, s.next)
    ensures var l := s.next[|s.next| - 1];
            && (l.ItemParams? || l.RawParams? ==>
                  && |s.next| == 3 && s.next[0].FieldsOf? && s.next[0].i < |T.items| && s.next[1].Value?
                  && (l.ItemParams? ==> Pops(s.next[1].kind) == 1))
            && (l.RssFuncs? || l.RssTypeList? || l.RssQueueList? ==> s.next == [RssFields, l])
  {
    ShapeFacts(s.next, s.args);
    PlacedItemHome(T, s);
    var l := s.next[|s.next| - 1];
    if l.ItemParams? { assert s.next[..2][1] == s.next[1]; }
    if l.RssFuncs? || l.RssTypeList? || l.RssQueueList? { assert s.next == [s.next[0], s.next[1]]; }
    hide BufferSound, RowBlock, Matched;
  }

  lemma LeafNextIs(T: Table, s: State, u: State, w: Token)
    requires InTable(T, w) && LeafToken(w) && Call(T, s, w) == Some(u) && s.next != []
    requires Member(T, s.next[|s.next| - 1], w)
    ensures w.Val? || w.RssFuncName? || w == RssType(true) || w == RssQueue(true) ==> u.next == s.next
    ensures w == RssType(false) || w == RssQueue(false) ==> u.next == s.next + [s.next[|s.next| - 1]]
    ensures w.ItemParam? && !w.p.Prefix? ==> u.next == s.next
    ensures w.ItemParam? && w.p.Prefix? ==> |s.next| >= 2 && u.next == s.next[|s.next| - 2 := Value(PrefixLength)]
  {
    hide ParseValue;
    LeafCallFacts(T, s, u, w);
  }

  lemma ParamNext(next: seq<List>, w: Token, u: seq<List>)
    requires |next| == 3 && next[1].Value? && w.ItemParam?
    requires u == if w.p.Prefix? then next[1 := Value(PrefixLength)] else next
    ensures u[..2] == [next[0], Value(if w.p.Prefix? then PrefixLength else next[1].kind)]
    ensures next == [next[0], Value(next[1].kind), next[2]]
  {}

  lemma LeafRest(T: Table, s: State, w: Token, u: State, rest: seq<Token>)
    requires StacksOk(s.next, s.args) && Placed(T, s, s.next) && s.next != [] && Member(T, s.next[|s.next| - 1], w)
    requires InTable(T, w) && LeafToken(w) && Call(T, s, w) == Some(u) && u.next != []
    ensures Rest(T, s.next, [w] + rest) <==> Rest(T, u.next[..|u.next| - 1], rest)
  {
    hide *;
    var l := s.next[|s.next| - 1];
    LeafTokens(T, l, w);
    LeafMembers(T, l, w);
    LeafTokenCases(w);
    LeafShape(T, s);
    LeafNextIs(T, s, u, w);
    if w.Val? {
      ValRest(T, s.next, w, rest);
    } else if w.ItemParam? {
      ParamRest(T, s.next[0].i, s.next[1].kind, l, w, rest);
      ParamNext(s.next, w, u.next);
    } else {
      RssLeafRest(T, l, w, rest, u.next[..|u.next| - 1]);
    }
  }

  lemma HomeInTable(T: Table, s: State)
    requires s.next != [] && Placed(T, s, s.next)
    ensures s.next[0].FieldsOf? ==> s.next[0].i < |T.items|
    ensures s.next[0].ActionFieldsOf? ==> s.next[0].a < |T.actions|
  {
    hide BufferSound, RowBlock;
  }

  /** A word in a state where something is pending. */
  lemma StepRest(T: Table, s: State, w: Token, rest: seq<Token>)
    requires TableOk(T) && Inv(T, s) && s.next != [] && Step(T, s, w).Some?
    ensures Rest(T, s.next, [w] + rest) <==> Rest(T, Step(T, s, w).value.next, rest)
  {
    hide *;
    var s', u := StepInversion(T, s, w);
    InvElim(T, s);
    LeafTokens(T, s.next[|s.next| - 1], w);
    if LeafToken(w) {
      LeafRest(T, s, w, u, rest);
      LeafRowFacts(T, w);
      assert u.next[..|u.next| - 1] + [] == u.next[..|u.next| - 1];
    } else {
      NothingElsePending(s.next, s.args);
      HomeCallFacts(T, s, u, w);
      HomeInTable(T, s);
      HomeRest(T, s.next[0], w, rest);
      RestList(T, s.next[0], [w] + rest);
      assert s.next == [s.next[0]] && u.next[..|u.next| - 1] + Next(T, w) == Next(T, w);
    }
  }

  // ---------------------------------------------------------------- whole lines

  lemma EndRest(T: Table, s: State)
    requires StacksOk(s.next, s.args) && s.started
    ensures Complete(s) <==> Rest(T, s.next, [])
  {
    if s.next != [] {
      var l := s.next[|s.next| - 1];
      if !Leaf(l) {
        NothingElsePending(s.next, s.args);
        assert s.next == [l];
        RestList(T, l, []);
      } else if l.Value? {
        assert s.next == s.next[..|s.next| - 1] + [l];
        RestValue(T, s.next[..|s.next| - 1], l.kind, []);
      }
    }
  }

  lemma {:induction false} RunRest(T: Table, s: State, ws: seq<Token>)
    requires TableOk(T) && Inv(T, s) && s.started && Run(T, s, ws).Some?
    ensures Complete(Run(T, s, ws).value) <==> Rest(T, s.next, ws)
    decreases |ws|
  {
    hide Inv, Step, Rest, Complete, TableOk;
    InvElim(T, s);
    if ws == [] {
      EndRest(T, s);
    } else if s.next == [] {
      NothingAfter(T, s, ws[0]);
    } else {
      var t := Step(T, s, ws[0]).value;
      assert ws == [ws[0]] + ws[1..];
      StepRest(T, s, ws[0], ws[1..]);
      StepKeepsInv(T, s, ws[0]);
      StaysStarted(T, s, ws[0]);
      RunRest(T, t, ws[1..]);
    }
  }

  lemma NothingAfter(T: Table, s: State, w: Token)
    requires s.next == [] && s.started
    ensures Step(T, s, w) == None
  {}

  lemma StaysStarted(T: Table, s: State, w: Token)
    requires Step(T, s, w).Some? && s.started && s.next != []
    ensures Step(T, s, w).value.started
  {
    hide *;
    var s', u := StepInversion(T, s, w);
    CallKeepsStarted(T, s, w, u);
  }

  lemma FreshRun(T: Table, ws: seq<Token>)
    requires ws != [] && Run(T, Fresh(), ws).Some?
    ensures var s := Fresh().(started := true, next := [FlowOnly]);
            Run(T, s, ws) == Run(T, Fresh(), ws) && Inv(T, s)
  {
    var s := Fresh().(started := true, next := [FlowOnly]);
    OneListMatches(FlowOnly);
    hide Call, Advance, Member, InTable, Matched;
    assert Step(T, s, ws[0]) == Step(T, Fresh(), ws[0]);
  }

  /** Main result on the language: words that the parser accepts one after the other are a complete
      command if and only if they are one of the commands above. */
  lemma CompleteIffCommand(T: Table, ws: seq<Token>)
    requires TableOk(T) && Run(T, Fresh(), ws).Some?
    ensures Complete(Run(T, Fresh(), ws).value) <==> Line(T, ws)
  {
    if ws != [] {
      FreshRun(T, ws);
      var s := Fresh().(started := true, next := [FlowOnly]);
      RestList(T, FlowOnly, ws);
      hide Run, Inv, Rest, Complete;
      RunRest(T, s, ws);
    }
  }
}
