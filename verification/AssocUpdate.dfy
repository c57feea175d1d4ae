/** Compound assignment to an associative array held as text, and the map it stands for. */
module AssocUpdate {
  import opened Text
  import opened AssocCodec
  import opened AssocRoundTrip
  import AssocOrder

  // ----- The assignment as the executor performs it

  function ArrayTokens(value: string): seq<string> {
    match Enclosed(value, '(', ')')
    case Some(inner) => StorageWords(inner)
    case None => if value == "" then [] else [value]
  }

  predicate Explicit(tokens: seq<string>) { exists t | t in tokens :: AssignmentToken(t).Some? }

  function LastIndex(es: seq<Entry>, key: string): (i: Option<nat>)
    ensures i.Some? ==> i.value < |es| && es[i.value].0 == key
    ensures i.Some? ==> forall j | i.value < j < |es| :: es[j].0 != key
    ensures i.None? ==> forall j | 0 <= j < |es| :: es[j].0 != key
  {
    if es == [] then None
    else if es[|es| - 1].0 == key then Some(|es| - 1)
    else LastIndex(es[..|es| - 1], key)
  }

  /** The last entry with the key takes the new value in its slot; a new key goes to the end. */
  function Update(es: seq<Entry>, key: string, value: string, extend: bool): seq<Entry> {
    match LastIndex(es, key)
    case None => es + [(key, value)]
    case Some(i) => es[i := (key, if extend then es[i].1 + value else value)]
  }

  function ApplyToken(es: seq<Entry>, token: string): seq<Entry> {
    match AssignmentToken(token)
    case None => es
    case Some((key, value, extend)) => Update(es, Unquote(key), Unquote(value), extend)
  }

  function ApplyTokens(es: seq<Entry>, tokens: seq<string>): seq<Entry>
    decreases |tokens|
  {
    if tokens == [] then es else ApplyTokens(ApplyToken(es, tokens[0]), tokens[1..])
  }

  /** Without any subscript the words alternate between keys and values; a last odd key gets no value. */
  function PairUp(words: seq<string>): seq<Entry> {
    if words == [] then []
    else if |words| == 1 then [(words[0], "")]
    else [(words[0], words[1])] + PairUp(words[2..])
  }

  function UnquoteAll(tokens: seq<string>): seq<string> {
    seq(|tokens|, i requires 0 <= i < |tokens| => Unquote(tokens[i]))
  }

  function AppendAssoc(current: string, value: string): string {
    var tokens := Merged(ArrayTokens(value));
    FormatAssoc(if Explicit(tokens) then ApplyTokens(AssocEntries(current), tokens)
                else AssocEntries(current) + PairUp(UnquoteAll(tokens)))
  }

  method ReadTokens(value: string) returns (tokens: seq<string>)
    ensures tokens == Merged(ArrayTokens(value))
  {
    var words := if value == "" then [] else [value];
    if |value| >= 2 && value[0] == '(' && value[|value| - 1] == ')' {
      words := SplitStorageWords(value[1..|value| - 1]);
    }
    tokens := MergeAssocSubscriptTokens(words);
  }

  method HasSubscript(tokens: seq<string>) returns (explicit: bool)
    ensures explicit == Explicit(tokens)
  {
    explicit := false;
    for i := 0 to |tokens|
      invariant explicit <==> exists j :: 0 <= j < i && AssignmentToken(tokens[j]).Some?
    {
      var split := AssocAssignmentToken(tokens[i]);
      explicit := explicit || split.Some?;
    }
  }

  method AppendPairs(before: seq<Entry>, tokens: seq<string>) returns (entries: seq<Entry>)
    ensures entries == before + PairUp(UnquoteAll(tokens))
  {
    entries := before;
    ghost var words := UnquoteAll(tokens);
    assert words[0..] == words;
    var i := 0;
    while i < |tokens|
      invariant 0 <= i
      invariant entries + PairUp(if i < |tokens| then words[i..] else []) == before + PairUp(words)
    {
      var key := UnquoteStorageValue(tokens[i]);
      var paired := "";
      if i + 1 < |tokens| {
        paired := UnquoteStorageValue(tokens[i + 1]);
        assert words[i..][2..] == words[i + 2..];
      }
      entries := entries + [(key, paired)];
      i := i + 2;
    }
  }

  method ApplyAssignments(before: seq<Entry>, tokens: seq<string>) returns (entries: seq<Entry>)
    ensures entries == ApplyTokens(before, tokens)
  {
    entries := before;
    assert tokens[0..] == tokens;
    for i := 0 to |tokens|
      invariant ApplyTokens(entries, tokens[i..]) == ApplyTokens(before, tokens)
    {
      assert tokens[i..][1..] == tokens[i + 1..];
      var split := AssocAssignmentToken(tokens[i]);
      if split.Some? {
        var key := UnquoteStorageValue(split.value.0);
        var rhs := UnquoteStorageValue(split.value.1);
        var found := FindLast(entries, key);
        if found.Some? {
          var current := entries[found.value].1;
          entries := entries[found.value := (key, if split.value.2 then current + rhs else rhs)];
        } else {
          entries := entries + [(key, rhs)];
        }
      }
    }
  }

  method AppendAssocValue(current: string, value: string) returns (text: string)
    ensures text == AppendAssoc(current, value)
  {
    var entries := AssocEntries(current);
    var tokens := ReadTokens(value);
    var explicit := HasSubscript(tokens);
    if !explicit {
      entries := AppendPairs(entries, tokens);
    } else {
      entries := ApplyAssignments(entries, tokens);
    }
    return FormatAssoc(entries);
  }

  method FindLast(es: seq<Entry>, key: string) returns (found: Option<nat>)
    ensures found == LastIndex(es, key)
  {
    var i := |es|;
    assert es[..i] == es;
    while i > 0
      invariant 0 <= i <= |es| && LastIndex(es[..i], key) == LastIndex(es, key)
    {
      i := i - 1;
      assert es[..i + 1][..i] == es[..i];
      if es[i].0 == key { return Some(i); }
    }
    return None;
  }

  // ----- Assignments as the user means them

  datatype Op = Assign(key: string, value: string) | Extend(key: string, value: string) | Word(text: string)

  function OpText(op: Op): string {
    match op
    case Assign(k, v) => PairText(QuoteKey(k), "=", QuoteValue(v))
    case Extend(k, v) => PairText(QuoteKey(k), "+=", QuoteValue(v))
    case Word(w) => QuoteForced(w)
  }

  function OpTexts(ops: seq<Op>): seq<string> { seq(|ops|, i requires 0 <= i < |ops| => OpText(ops[i])) }

  function OpsText(ops: seq<Op>): string { "(" + Join(OpTexts(ops), " ") + ")" }

  function CanonicalOp(op: Op): Op {
    match op
    case Assign(k, v) => Assign(Canonical(k), Canonical(v))
    case Extend(k, v) => Extend(Canonical(k), Canonical(v))
    case Word(w) => Word(Canonical(w))
  }

  function Applied(es: seq<Entry>, op: Op): seq<Entry> {
    match op
    case Assign(k, v) => Update(es, k, v, false)
    case Extend(k, v) => Update(es, k, v, true)
    case Word(_) => es
  }

  function AllApplied(es: seq<Entry>, ops: seq<Op>): seq<Entry>
    decreases |ops|
  {
    if ops == [] then es else AllApplied(Applied(es, ops[0]), ops[1..])
  }

  function CanonicalOps(ops: seq<Op>): seq<Op> { seq(|ops|, i requires 0 <= i < |ops| => CanonicalOp(ops[i])) }

  predicate Subscripted(ops: seq<Op>) { exists op | op in ops :: !op.Word? }

  function Words(ops: seq<Op>): seq<string>
    requires !Subscripted(ops)
  {
    seq(|ops|, i requires 0 <= i < |ops| => assert ops[i] in ops; ops[i].text)
  }

  /** The array an assignment list leaves behind. */
  function Outcome(es: seq<Entry>, ops: seq<Op>): seq<Entry> {
    if Subscripted(ops) then AllApplied(es, ops) else es + PairUp(Words(ops))
  }

  lemma {:induction false} OpReadsBack(op: Op)
    ensures Separable(OpText(op)) && AssignmentToken(OpText(op)).Some? == !op.Word?
    ensures forall es :: ApplyToken(es, OpText(op)) == Applied(es, CanonicalOp(op))
    ensures op.Word? ==> Unquote(OpText(op)) == Canonical(op.text)
  {
    match op
    case Word(w) =>
      ForcedReads(w);
      UnquoteForced(w);
    case _ =>
      QuotedIsInert(op.key);
      QuotedIsInert(op.value);
      PairTextReads(QuoteKey(op.key), if op.Assign? then "=" else "+=", QuoteValue(op.value));
      UnquoteQuoted(op.key);
      UnquoteQuoted(op.value);
  }

  lemma {:induction false} OpsReadBack(es: seq<Entry>, ops: seq<Op>)
    ensures ApplyTokens(es, OpTexts(ops)) == AllApplied(es, CanonicalOps(ops))
    decreases |ops|
  {
    if ops != [] {
      OpReadsBack(ops[0]);
      assert OpTexts(ops)[1..] == OpTexts(ops[1..]) && CanonicalOps(ops)[1..] == CanonicalOps(ops[1..]);
      assert OpTexts(ops)[0] == OpText(ops[0]) && CanonicalOps(ops)[0] == CanonicalOp(ops[0]);
      hide OpTexts, CanonicalOps, OpText, CanonicalOp, ApplyToken, Applied;
      OpsReadBack(Applied(es, CanonicalOp(ops[0])), ops[1..]);
    }
  }

  /** The printed list is read as its own tokens, and a subscript is seen exactly when there is one. */
  lemma {:induction false} OpTokensReadBack(ops: seq<Op>)
    ensures Merged(ArrayTokens(OpsText(ops))) == OpTexts(ops)
    ensures Explicit(OpTexts(ops)) <==> Subscripted(CanonicalOps(ops))
  {
    var tokens, canonical := OpTexts(ops), CanonicalOps(ops);
    forall i | 0 <= i < |ops|
      ensures Separable(tokens[i]) && AssignmentToken(tokens[i]).Some? == !canonical[i].Word?
    {
      OpReadsBack(ops[i]);
    }
    TokensReadBack(tokens);
  }

  lemma {:induction false} WordsReadBack(ops: seq<Op>)
    requires !Subscripted(CanonicalOps(ops))
    ensures UnquoteAll(OpTexts(ops)) == Words(CanonicalOps(ops))
  {
    forall i | 0 <= i < |ops| ensures Unquote(OpTexts(ops)[i]) == Words(CanonicalOps(ops))[i] {
      assert CanonicalOps(ops)[i] in CanonicalOps(ops);
      OpReadsBack(ops[i]);
    }
  }

  /** For every stored array and every printed assignment list, the executor leaves the text of the
      array that the list means, with all strings in the form storage gives them. */
  lemma {:induction false} AssignmentMeaning(es: seq<Entry>, ops: seq<Op>)
    ensures AppendAssoc(FormatAssoc(es), OpsText(ops)) == FormatAssoc(Outcome(CanonicalEntries(es), CanonicalOps(ops)))
  {
    StoredReadsBack(es);
    OpTokensReadBack(ops);
    if Subscripted(CanonicalOps(ops)) {
      OpsReadBack(CanonicalEntries(es), ops);
    } else {
      WordsReadBack(ops);
    }
  }

  predicate StorableOp(op: Op) {
    match op
    case Word(w) => Storable(w)
    case _ => Storable(op.key) && Storable(op.value)
  }

  lemma {:induction false} StorableAssignment(es: seq<Entry>, ops: seq<Op>)
    requires AllStorable(es) && forall op | op in ops :: StorableOp(op)
    ensures AppendAssoc(FormatAssoc(es), OpsText(ops)) == FormatAssoc(Outcome(es, ops))
  {
    AssignmentMeaning(es, ops);
    EntriesFixed(es);
    forall i | 0 <= i < |ops| ensures CanonicalOp(ops[i]) == ops[i] {
      assert ops[i] in ops;
      match ops[i]
      case Word(w) => CanonicalFixed(w);
      case _ =>
        CanonicalFixed(ops[i].key);
        CanonicalFixed(ops[i].value);
    }
    assert CanonicalOps(ops) == ops;
  }

  // ----- Whole runs: the text is re-read and re-written by every statement

  function RunText(text: string, statements: seq<seq<Op>>): string
    decreases |statements|
  {
    if statements == [] then text else RunText(AppendAssoc(text, OpsText(statements[0])), statements[1..])
  }

  function RunEntries(es: seq<Entry>, statements: seq<seq<Op>>): seq<Entry>
    decreases |statements|
  {
    if statements == [] then es else RunEntries(Outcome(es, statements[0]), statements[1..])
  }

  predicate RunStorable(es: seq<Entry>, statements: seq<seq<Op>>)
    decreases |statements|
  {
    AllStorable(es) && (statements != [] ==>
      && (forall op | op in statements[0] :: StorableOp(op))
      && RunStorable(Outcome(es, statements[0]), statements[1..]))
  }

  lemma {:induction false} RunKeepsText(es: seq<Entry>, statements: seq<seq<Op>>)
    requires RunStorable(es, statements)
    ensures RunText(FormatAssoc(es), statements) == FormatAssoc(RunEntries(es, statements))
    ensures AssocEntries(RunText(FormatAssoc(es), statements)) == RunEntries(es, statements)
    decreases |statements|
  {
    if statements == [] {
      RoundTrip(es);
    } else {
      StorableAssignment(es, statements[0]);
      RunKeepsText(Outcome(es, statements[0]), statements[1..]);
    }
  }

  // ----- The map the entries stand for

  function View(es: seq<Entry>): map<string, string> {
    if es == [] then map[] else View(es[..|es| - 1])[es[|es| - 1].0 := es[|es| - 1].1]
  }

  predicate DistinctKeys(es: seq<Entry>) { forall i, j | 0 <= i < j < |es| :: es[i].0 != es[j].0 }

  function MapOp(m: map<string, string>, op: Op): map<string, string> {
    match op
    case Assign(k, v) => m[k := v]
    case Extend(k, v) => m[k := (if k in m then m[k] else "") + v]
    case Word(_) => m
  }

  function MapOps(m: map<string, string>, ops: seq<Op>): map<string, string>
    decreases |ops|
  {
    if ops == [] then m else MapOps(MapOp(m, ops[0]), ops[1..])
  }

  lemma {:induction false} ViewLookup(es: seq<Entry>, key: string)
    ensures ValueAt(es, key) == if key in View(es) then Some(View(es)[key]) else None
    ensures LastIndex(es, key).Some? <==> key in View(es)
    ensures LastIndex(es, key).Some? ==> View(es)[key] == es[LastIndex(es, key).value].1
  {
    if es != [] { ViewLookup(es[..|es| - 1], key); }
  }

  lemma {:induction false} ViewReplace(es: seq<Entry>, i: nat, value: string)
    requires i < |es| && forall j | i < j < |es| :: es[j].0 != es[i].0
    ensures View(es[i := (es[i].0, value)]) == View(es)[es[i].0 := value]
  {
    var n := |es| - 1;
    var changed := es[i := (es[i].0, value)];
    if i < n {
      ViewReplace(es[..n], i, value);
      assert changed[..n] == es[..n][i := (es[i].0, value)];
    } else {
      assert changed[..n] == es[..n];
    }
  }

  /** An update of the entry list is the update of the map, with or without duplicate keys. */
  lemma {:induction false} AppliedIsMapOp(es: seq<Entry>, op: Op)
    ensures View(Applied(es, op)) == MapOp(View(es), op)
    ensures DistinctKeys(es) ==> DistinctKeys(Applied(es, op))
  {
    if !op.Word? {
      ViewLookup(es, op.key);
      match LastIndex(es, op.key)
      case Some(i) => ViewReplace(es, i, if op.Extend? then es[i].1 + op.value else op.value);
      case None =>
        assert (es + [(op.key, op.value)])[..|es|] == es;
        assert "" + op.value == op.value;
    }
  }

  lemma {:induction false} AssignmentIsMapUpdate(es: seq<Entry>, ops: seq<Op>)
    ensures View(AllApplied(es, ops)) == MapOps(View(es), ops)
    ensures DistinctKeys(es) ==> DistinctKeys(AllApplied(es, ops))
    decreases |ops|
  {
    if ops != [] {
      AppliedIsMapOp(es, ops[0]);
      AssignmentIsMapUpdate(Applied(es, ops[0]), ops[1..]);
    }
  }

  /** After a subscripted assignment that stays storable, a lookup in the text is a lookup in the updated map. */
  lemma {:induction false} LookupAfterAssignment(es: seq<Entry>, ops: seq<Op>, key: string)
    requires Subscripted(ops) && RunStorable(es, [ops])
    ensures var m := MapOps(View(es), ops);
            AssocValueAt(AppendAssoc(FormatAssoc(es), OpsText(ops)), key) == if key in m then Some(m[key]) else None
  {
    RunKeepsText(es, [ops]);
    var after := AppendAssoc(FormatAssoc(es), OpsText(ops));
    assert [ops][1..] == [];
    assert RunText(FormatAssoc(es), [ops]) == after && RunEntries(es, [ops]) == AllApplied(es, ops);
    AssignmentIsMapUpdate(es, ops);
    ViewLookup(AllApplied(es, ops), key);
  }

  /** The alternating form appends without looking: keys stay distinct exactly when the new keys are
      distinct and none of them is already there. */
  lemma AlternatingDistinct(es: seq<Entry>, words: seq<string>)
    ensures var added := PairUp(words);
            DistinctKeys(es + added) <==>
              DistinctKeys(es) && DistinctKeys(added) && forall a, b | a in es && b in added :: a.0 != b.0
  {
    var added := PairUp(words);
    var all := es + added;
    if DistinctKeys(all) {
      forall a, b | a in es && b in added ensures a.0 != b.0 {
        var i :| 0 <= i < |es| && es[i] == a;
        var j :| 0 <= j < |added| && added[j] == b;
        assert all[i] == a && all[|es| + j] == b;
      }
      forall i, j | 0 <= i < j < |added| ensures added[i].0 != added[j].0 {
        assert all[|es| + i] == added[i] && all[|es| + j] == added[j];
      }
      forall i, j | 0 <= i < j < |es| ensures es[i].0 != es[j].0 {
        assert all[i] == es[i] && all[j] == es[j];
      }
    }
  }

  /** The alternating list `k a k b` leaves two entries with one key. The listing then shows the first value and a
      lookup finds the second. */
  lemma RepeatedKey(k: string, a: string, b: string)
    requires Storable(k) && Storable(a) && Storable(b)
    ensures var es := AssocEntries(AppendAssoc(FormatAssoc([]), OpsText([Word(k), Word(a), Word(k), Word(b)])));
            && es == [(k, a), (k, b)]
            && AssocOrder.Order(es) == [0]
            && ValueAt(es, k) == Some(b)
  {
    var ops := [Word(k), Word(a), Word(k), Word(b)];
    var es := [(k, a), (k, b)];
    AlternatingOutcome(k, a, b);
    hide *;
    StorableAssignment([], ops);
    RoundTrip(es);
    OnlyFirst(es);
    AssocOrder.ValueAtLast(es, k, 1);
  }

  lemma AlternatingOutcome(k: string, a: string, b: string)
    requires Storable(k) && Storable(a) && Storable(b)
    ensures var ops, es := [Word(k), Word(a), Word(k), Word(b)], [(k, a), (k, b)];
            && Outcome([], ops) == es
            && AllStorable([]) && AllStorable(es)
            && forall op | op in ops :: StorableOp(op)
  {
    hide Storable;
    var ops := [Word(k), Word(a), Word(k), Word(b)];
    assert Words(ops) == [k, a, k, b];
    assert [k, a, k, b][2..] == [k, b] && [k, b][2..] == [];
    assert PairUp([k, b]) == [(k, b)];
    assert PairUp([k, a, k, b]) == [(k, a)] + [(k, b)];
  }

  lemma OnlyFirst(es: seq<Entry>)
    requires |es| == 2 && es[0].0 == es[1].0
    ensures AssocOrder.Order(es) == [0]
  {
    hide AssocOrder.Order;
    var order := AssocOrder.Order(es);
    forall i: nat ensures multiset(order)[i] == multiset{0}[i] { AssocOrder.OrderListsFirstOccurrences(es, i); }
    assert multiset(order) == multiset{0};
    assert |order| == |multiset(order)| == 1;
    assert order[0] in multiset(order);
  }
}
