/** internal/httprule/gwbased/compile.go: templates compiled to opcode/operand pairs over a constant pool,
    and the stack machine that reads them back. */
module GwCompile {
  import opened Text
  import opened PathChars
  import opened Lexing
  import opened GwTemplate
  import opened GwShape
  import opened GwRoundTrip
  import opened GwInverse

  // Opcode numbers of the grpc-gateway utilities package, which is not part of this model; only
  // their being distinct matters here.
  const OP_PUSH := 1
  const OP_LIT_PUSH := 2
  const OP_PUSH_M := 3
  const OP_CONCAT_N := 4
  const OP_CAPTURE := 5
  const OPCODE_VERSION := 1

  datatype Op = Op(code: int, str: string, num: int)

  datatype Compiled = Compiled(
    version: int, opCodes: seq<int>, pool: seq<string>, verb: string, fields: seq<string>, template: string)

  function RawOps(s: Segment): seq<Op> {
    match s
    case Wildcard => [Op(OP_PUSH, "", 0)]
    case DeepWildcard => [Op(OP_PUSH_M, "", 0)]
    case Literal(l) => [Op(OP_LIT_PUSH, l, 0)]
    case Variable(path, body) => RawAll(body) + [Op(OP_CONCAT_N, "", |body|), Op(OP_CAPTURE, path, 0)]
  }

  function RawAll(ss: seq<Segment>): seq<Op> {
    if ss == [] then [] else RawOps(ss[0]) + RawAll(ss[1..])
  }

  /** The constant standing for a string operand: the end marker of the root template is stored as "". */
  function Stored(str: string): string {
    if str == EOF then "" else str
  }

  /** The distinct constants of the operations, in order of first use. */
  function Constants(raw: seq<Op>): (pool: seq<string>)
    ensures forall i, j :: 0 <= i < j < |pool| ==> pool[i] != pool[j]
    decreases |raw|
  {
    if raw == [] then []
    else
      var pool := Constants(raw[..|raw| - 1]);
      var o := raw[|raw| - 1];
      if o.str == "" || Stored(o.str) in pool then pool else pool + [Stored(o.str)]
  }

  /** The field paths of the captures, in order. */
  function Captures(raw: seq<Op>): seq<string>
    decreases |raw|
  {
    if raw == [] then []
    else
      var o := raw[|raw| - 1];
      Captures(raw[..|raw| - 1]) + if o.code == OP_CAPTURE then [Stored(o.str)] else []
  }

  /** Pair `k` of the compiled code stands for operation `raw[k]`. */
  predicate EncodesAt(ops: seq<int>, pool: seq<string>, raw: seq<Op>, k: nat)
    requires |ops| == 2 * |raw| && k < |raw|
  {
    && ops[2 * k] == raw[k].code
    && if raw[k].str == "" then ops[2 * k + 1] == raw[k].num
       else 0 <= ops[2 * k + 1] < |pool| && pool[ops[2 * k + 1]] == Stored(raw[k].str)
  }

  predicate Encodes(ops: seq<int>, pool: seq<string>, raw: seq<Op>) {
    |ops| == 2 * |raw| && forall k :: 0 <= k < |raw| ==> EncodesAt(ops, pool, raw, k)
  }

  method CompileSegment(s: Segment) returns (ops: seq<Op>)
    ensures ops == RawOps(s)
    decreases s, 1
  {
    match s {
      case Wildcard => ops := [Op(OP_PUSH, "", 0)];
      case DeepWildcard => ops := [Op(OP_PUSH_M, "", 0)];
      case Literal(l) => ops := [Op(OP_LIT_PUSH, l, 0)];
      case Variable(path, body) =>
        ops := CompileSegments(body);
        ops := ops + [Op(OP_CONCAT_N, "", |body|), Op(OP_CAPTURE, path, 0)];
    }
  }

  method CompileSegments(ss: seq<Segment>) returns (ops: seq<Op>)
    ensures ops == RawAll(ss)
    decreases ss, 0
  {
    ops := [];
    for i := 0 to |ss|
      invariant RawAll(ss) == ops + RawAll(ss[i..])
    {
      var more := CompileSegment(ss[i]);
      assert ss[i..][1..] == ss[i + 1..];
      ops := ops + more;
    }
  }

  /** The constant pool while it is filled: `consts` is the position of every pooled string. */
  predicate Indexes(consts: map<string, int>, pool: seq<string>) {
    && (forall k :: 0 <= k < |pool| ==> pool[k] in consts && consts[pool[k]] == k)
    && (forall s :: s in consts ==> 0 <= consts[s] < |pool| && pool[consts[s]] == s)
  }

  /** The position of a constant in the pool, which it joins when it is new. */
  method PoolConstant(consts: map<string, int>, pool: seq<string>, str: string)
    returns (consts': map<string, int>, pool': seq<string>, idx: int)
    requires Indexes(consts, pool)
    ensures Indexes(consts', pool') && pool' == if str in pool then pool else pool + [str]
    ensures pool <= pool' && 0 <= idx < |pool'| && pool'[idx] == str
  {
    hide *;
    IndexMore(consts, pool, str);
    consts', pool' := consts, pool;
    if str !in consts {
      consts' := consts[str := |pool|];
      pool' := pool + [str];
      return consts', pool', |pool|;
    }
    idx := consts[str];
  }

  method Compile(t: Template) returns (c: Compiled)
    ensures c.version == OPCODE_VERSION && c.verb == t.verb && c.template == t.template
    ensures Encodes(c.opCodes, c.pool, RawAll(t.segments))
    ensures c.pool == Constants(RawAll(t.segments))
    ensures c.fields == Captures(RawAll(t.segments))
  {
    hide *;
    EncodesNothing();
    var rawOps := CompileSegments(t.segments);
    var ops: seq<int>, pool: seq<string>, fields: seq<string> := [], [], [];
    var consts: map<string, int> := map[];
    for i := 0 to |rawOps|
      invariant Encodes(ops, pool, rawOps[..i])
      invariant pool == Constants(rawOps[..i])
      invariant fields == Captures(rawOps[..i])
      invariant Indexes(consts, pool)
    {
      var o := rawOps[i];
      ghost var ops0, pool0, raw0 := ops, pool, rawOps[..i];
      assert rawOps[..i + 1] == raw0 + [o];
      OneMore(raw0, o);
      StoredOf(o.str);
      var operand := o.num;
      if o.str != "" {
        if o.str == EOF {
          o := o.(str := "");
        }
        consts, pool, operand := PoolConstant(consts, pool, o.str);
      }
      ops := ops + [o.code, operand];
      if o.code == OP_CAPTURE {
        fields := fields + [o.str];
      }
      EncodesMore(ops0, pool0, raw0, ops, pool, rawOps[i]);
    }
    assert rawOps[..|rawOps|] == rawOps;
    c := Compiled(OPCODE_VERSION, ops, pool, t.verb, fields, t.template);
  }

  lemma StoredOf(str: string)
    ensures Stored(str) == if str == EOF then "" else str
  {
  }

  lemma IndexMore(consts: map<string, int>, pool: seq<string>, str: string)
    requires Indexes(consts, pool)
    ensures str in consts <==> str in pool
    ensures str in consts ==> 0 <= consts[str] < |pool| && pool[consts[str]] == str
    ensures str !in consts ==> Indexes(consts[str := |pool|], pool + [str])
  {
  }

  lemma EncodesNothing()
    ensures Indexes(map[], [])
    ensures Encodes([], [], []) && Constants([]) == [] && Captures([]) == []
  {
  }

  lemma OneMore(raw: seq<Op>, o: Op)
    ensures Constants(raw + [o]) == var pool := Constants(raw);
              if o.str == "" || Stored(o.str) in pool then pool else pool + [Stored(o.str)]
    ensures Captures(raw + [o]) == Captures(raw) + if o.code == OP_CAPTURE then [Stored(o.str)] else []
  {
    assert (raw + [o])[..|raw|] == raw;
  }

  lemma EncodesMore(ops: seq<int>, pool: seq<string>, raw: seq<Op>, ops': seq<int>, pool': seq<string>, o: Op)
    requires Encodes(ops, pool, raw) && pool <= pool' && ops <= ops' && |ops'| == |ops| + 2
    requires ops'[|ops|] == o.code
    requires if o.str == "" then ops'[|ops| + 1] == o.num
             else 0 <= ops'[|ops| + 1] < |pool'| && pool'[ops'[|ops| + 1]] == Stored(o.str)
    ensures Encodes(ops', pool', raw + [o])
  {
    forall k | 0 <= k < |raw| ensures EncodesAt(ops', pool', raw + [o], k) {
      assert EncodesAt(ops, pool, raw, k);
    }
  }

  // ---- reading the code back -----------------------------------------------------------

  datatype Inst = IPush | IPushM | ILit(lit: string) | IConcat(n: nat) | ICapture(path: string)

  /** The string a pool constant stands for. */
  function Loaded(constant: string): string {
    if constant == "" then EOF else constant
  }

  function DecodePair(code: int, operand: int, pool: seq<string>): Option<Inst> {
    if code == OP_PUSH then Some(IPush)
    else if code == OP_PUSH_M then Some(IPushM)
    else if code == OP_CONCAT_N then (if operand >= 0 then Some(IConcat(operand)) else None)
    else if !(0 <= operand < |pool|) then None
    else if code == OP_LIT_PUSH then Some(ILit(Loaded(pool[operand])))
    else if code == OP_CAPTURE then Some(ICapture(Loaded(pool[operand])))
    else None
  }

  datatype Item = Single(seg: Segment) | Group(segs: seq<Segment>)

  /** One machine step; None is a stack underflow or a malformed stack. */
  function Step(inst: Inst, stack: seq<Item>): Option<seq<Item>> {
    match inst
    case IPush => Some(stack + [Single(Wildcard)])
    case IPushM => Some(stack + [Single(DeepWildcard)])
    case ILit(l) => Some(stack + [Single(Literal(l))])
    case IConcat(n) =>
      if n > |stack| || exists k :: |stack| - n <= k < |stack| && stack[k].Group? then None
      else Some(stack[..|stack| - n] + [Group(Ungroup(stack[|stack| - n..]))])
    case ICapture(path) =>
      if stack == [] || stack[|stack| - 1].Single? then None
      else Some(stack[..|stack| - 1] + [Single(Variable(path, stack[|stack| - 1].segs))])
  }

  function Ungroup(items: seq<Item>): (ss: seq<Segment>)
    requires forall k :: 0 <= k < |items| ==> items[k].Single?
    ensures |ss| == |items| && forall k :: 0 <= k < |ss| ==> ss[k] == items[k].seg
  {
    seq(|items|, k requires 0 <= k < |items| => items[k].seg)
  }

  function Singles(ss: seq<Segment>): (items: seq<Item>)
    ensures |items| == |ss| && forall k :: 0 <= k < |ss| ==> items[k] == Single(ss[k])
  {
    seq(|ss|, k requires 0 <= k < |ss| => Single(ss[k]))
  }

  /** Runs the code from its first pair. */
  function Run(ops: seq<int>, pool: seq<string>, stack: seq<Item>): Option<seq<Item>>
    decreases |ops|
  {
    if ops == [] then Some(stack)
    else if |ops| == 1 then None
    else
      match DecodePair(ops[0], ops[1], pool)
      case None => None
      case Some(inst) =>
        match Step(inst, stack)
        case None => None
        case Some(stack') => Run(ops[2..], pool, stack')
  }

  // ---- losslessness --------------------------------------------------------------------

  predicate NamedSegment(s: Segment) {
    match s
    case Literal(l) => l != ""
    case Variable(path, body) => path != "" && Named(body)
    case _ => true
  }

  /** No literal and no field path is empty, at any depth. */
  predicate Named(ss: seq<Segment>) {
    forall k :: 0 <= k < |ss| ==> NamedSegment(ss[k])
  }

  /** The instruction an operation stands for. */
  function InstOf(o: Op): Option<Inst> {
    if o.code == OP_PUSH then Some(IPush)
    else if o.code == OP_PUSH_M then Some(IPushM)
    else if o.code == OP_CONCAT_N && o.num >= 0 && o.str == "" then Some(IConcat(o.num))
    else if o.code == OP_LIT_PUSH && o.str != "" then Some(ILit(o.str))
    else if o.code == OP_CAPTURE && o.str != "" then Some(ICapture(o.str))
    else None
  }

  /** Runs operations directly. */
  function RunRaw(raw: seq<Op>, stack: seq<Item>): Option<seq<Item>> {
    if raw == [] then Some(stack)
    else
      match InstOf(raw[0])
      case None => None
      case Some(inst) =>
        match Step(inst, stack)
        case None => None
        case Some(stack') => RunRaw(raw[1..], stack')
  }

  /** Running the compiled code is running the operations it encodes. */
  lemma {:induction false} RunEncoded(ops: seq<int>, pool: seq<string>, raw: seq<Op>, stack: seq<Item>)
    requires Encodes(ops, pool, raw)
    requires RunRaw(raw, stack).Some?
    ensures Run(ops, pool, stack) == RunRaw(raw, stack)
    decreases |raw|
  {
    if raw != [] {
      var o := raw[0];
      assert EncodesAt(ops, pool, raw, 0);
      var inst := InstOf(o).value;
      assert Stored(o.str) == "" ==> o.str == "" || o.str == EOF;
      assert DecodePair(ops[0], ops[1], pool) == Some(inst);
      EncodesTail(ops, pool, raw);
      hide Step, Encodes;
      RunEncoded(ops[2..], pool, raw[1..], Step(inst, stack).value);
    }
  }

  lemma EncodesTail(ops: seq<int>, pool: seq<string>, raw: seq<Op>)
    requires Encodes(ops, pool, raw) && raw != []
    ensures Encodes(ops[2..], pool, raw[1..])
  {
    forall k | 0 <= k < |raw| - 1 ensures EncodesAt(ops[2..], pool, raw[1..], k) {
      assert EncodesAt(ops, pool, raw, k + 1);
    }
  }

  lemma {:induction false} RunAppend(a: seq<Op>, b: seq<Op>, stack: seq<Item>)
    requires RunRaw(a, stack).Some?
    ensures RunRaw(a + b, stack) == RunRaw(b, RunRaw(a, stack).value)
    decreases |a|
  {
    hide Step, InstOf;
    if a == [] {
      assert a + b == b;
    } else {
      assert (a + b)[0] == a[0] && (a + b)[1..] == a[1..] + b;
      RunAppend(a[1..], b, Step(InstOf(a[0]).value, stack).value);
    }
  }

  /** The operations of a segment push exactly that segment. */
  lemma {:induction false} SegmentPushed(s: Segment, stack: seq<Item>)
    requires NamedSegment(s)
    ensures RunRaw(RawOps(s), stack) == Some(stack + [Single(s)])
    decreases s, 1
  {
    match s {
      case Variable(path, body) =>
        AllPushed(body, stack);
        var cat, cap := Op(OP_CONCAT_N, "", |body|), Op(OP_CAPTURE, path, 0);
        RunAppend(RawAll(body), [cat, cap], stack);
        Captured(path, body, stack);
      case _ =>
        assert RawOps(s)[1..] == [];
    }
  }

  lemma Captured(path: string, body: seq<Segment>, stack: seq<Item>)
    requires path != ""
    ensures RunRaw([Op(OP_CONCAT_N, "", |body|), Op(OP_CAPTURE, path, 0)], stack + Singles(body))
         == Some(stack + [Single(Variable(path, body))])
  {
    var full := stack + Singles(body);
    var n := |body|;
    assert full[|full| - n..] == Singles(body) && full[..|full| - n] == stack;
    assert Ungroup(Singles(body)) == body;
    assert Step(IConcat(n), full) == Some(stack + [Group(body)]);
    var grouped := stack + [Group(body)];
    assert grouped[..|grouped| - 1] == stack;
    assert Step(ICapture(path), grouped) == Some(stack + [Single(Variable(path, body))]);
    var cat, cap := Op(OP_CONCAT_N, "", n), Op(OP_CAPTURE, path, 0);
    assert [cat, cap][1..] == [cap] && [cap][1..] == [];
    hide Step;
    assert RunRaw([cap], grouped) == Some(stack + [Single(Variable(path, body))]);
  }

  lemma {:induction false} AllPushed(ss: seq<Segment>, stack: seq<Item>)
    requires Named(ss)
    ensures RunRaw(RawAll(ss), stack) == Some(stack + Singles(ss))
    decreases ss, 0
  {
    hide *;
    if ss != [] { NamedParts(ss); }
    SinglesParts(ss, stack);
    RawParts(ss, stack);
    if ss != [] {
      SegmentPushed(ss[0], stack);
      AllPushed(ss[1..], stack + [Single(ss[0])]);
      RunAppend(RawOps(ss[0]), RawAll(ss[1..]), stack);
    }
  }

  lemma NamedParts(ss: seq<Segment>)
    requires Named(ss) && ss != []
    ensures NamedSegment(ss[0]) && Named(ss[1..])
  {
    hide NamedSegment;
  }

  lemma SinglesParts(ss: seq<Segment>, stack: seq<Item>)
    ensures ss == [] ==> stack + Singles(ss) == stack
    ensures ss != [] ==> stack + [Single(ss[0])] + Singles(ss[1..]) == stack + Singles(ss)
  {
  }

  lemma RawParts(ss: seq<Segment>, stack: seq<Item>)
    ensures ss == [] ==> RunRaw(RawAll(ss), stack) == Some(stack)
    ensures ss != [] ==> RawAll(ss) == RawOps(ss[0]) + RawAll(ss[1..])
  {
    hide RawOps;
  }

  // ---- nothing else is read back -------------------------------------------------------

  predicate NamedItem(item: Item) {
    match item
    case Single(s) => NamedSegment(s)
    case Group(ss) => Named(ss)
  }

  predicate NamedStack(stack: seq<Item>) {
    forall k :: 0 <= k < |stack| ==> NamedItem(stack[k])
  }

  lemma {:induction false} RunNamed(ops: seq<int>, pool: seq<string>, stack: seq<Item>)
    requires NamedStack(stack)
    ensures Run(ops, pool, stack).Some? ==> NamedStack(Run(ops, pool, stack).value)
    decreases |ops|
  {
    if |ops| >= 2 && DecodePair(ops[0], ops[1], pool).Some? {
      var inst := DecodePair(ops[0], ops[1], pool).value;
      StepNamed(inst, stack);
      hide Step;
      if Step(inst, stack).Some? {
        RunNamed(ops[2..], pool, Step(inst, stack).value);
      }
    }
  }

  lemma StepNamed(inst: Inst, stack: seq<Item>)
    requires NamedStack(stack)
    requires (inst.ILit? ==> inst.lit != "") && (inst.ICapture? ==> inst.path != "")
    ensures Step(inst, stack).Some? ==> NamedStack(Step(inst, stack).value)
  {
    hide NamedSegment, Named;
    assert NamedSegment(Wildcard) && NamedSegment(DeepWildcard) by { NamedLeaves(); }
    match inst {
      case IConcat(n) =>
        if Step(inst, stack).Some? {
          GroupNamed(stack, n);
          AppendNamed(stack[..|stack| - n], Group(Ungroup(stack[|stack| - n..])));
        }
      case ICapture(path) =>
        if Step(inst, stack).Some? {
          var top := stack[|stack| - 1];
          assert NamedItem(top);
          NamedVariable(path, top.segs);
          AppendNamed(stack[..|stack| - 1], Single(Variable(path, top.segs)));
        }
      case ILit(l) =>
        NamedLiteral(l);
        AppendNamed(stack, Single(Literal(l)));
      case IPush => AppendNamed(stack, Single(Wildcard));
      case IPushM => AppendNamed(stack, Single(DeepWildcard));
    }
  }

  lemma NamedLeaves()
    ensures NamedSegment(Wildcard) && NamedSegment(DeepWildcard)
  {
  }

  lemma NamedLiteral(l: string)
    requires l != ""
    ensures NamedSegment(Literal(l))
  {
  }

  lemma NamedVariable(path: string, body: seq<Segment>)
    requires path != "" && Named(body)
    ensures NamedSegment(Variable(path, body))
  {
  }

  lemma AppendNamed(stack: seq<Item>, item: Item)
    requires NamedStack(stack) && NamedItem(item)
    ensures NamedStack(stack + [item])
  {
  }

  lemma GroupNamed(stack: seq<Item>, n: nat)
    requires n <= |stack| && NamedStack(stack) && forall k :: |stack| - n <= k < |stack| ==> stack[k].Single?
    ensures NamedItem(Group(Ungroup(stack[|stack| - n..])))
  {
    hide NamedSegment;
    var from := |stack| - n;
    var group := Ungroup(stack[from..]);
    forall k | 0 <= k < |group| ensures NamedSegment(group[k]) {
      assert NamedItem(stack[from + k]) && group[k] == stack[from + k].seg;
    }
  }

  /** The code of a template reads back as its segments if and only if no literal and no field path is empty. */
  lemma CompiledMeaning(ss: seq<Segment>, ops: seq<int>, pool: seq<string>)
    requires Encodes(ops, pool, RawAll(ss))
    ensures Run(ops, pool, []) == Some(Singles(ss)) <==> Named(ss)
  {
    if Named(ss) {
      AllPushed(ss, []);
      assert [] + Singles(ss) == Singles(ss);
      RunEncoded(ops, pool, RawAll(ss), []);
    }
    if Run(ops, pool, []) == Some(Singles(ss)) {
      RunNamed(ops, pool, []);
      assert forall k :: 0 <= k < |ss| ==> NamedItem(Singles(ss)[k]);
    }
  }

  lemma SegmentOkNamed(s: Segment)
    requires SegmentOk(s)
    ensures NamedSegment(s) && (s.Variable? ==> s.path != "" && s.path[0] != '\0')
  {
    if s.Variable? {
      assert forall k :: 0 <= k < |s.segments| ==> FlatOk(s.segments[k]) && NamedSegment(s.segments[k]);
      var comps :| IsPathOf(comps, s.path);
      assert s.path[0] == comps[0][0];
    }
  }

  /** Every template that parses compiles to code that reads back as its segments. */
  lemma ParsedCompiles(tmpl: string, ops: seq<int>, pool: seq<string>)
    requires ParseOf(tmpl).Some?
    requires Encodes(ops, pool, RawAll(ParseOf(tmpl).value.segments))
    ensures Run(ops, pool, []) == Some(Singles(ParseOf(tmpl).value.segments))
  {
    var ss := ParseOf(tmpl).value.segments;
    hide *;
    ParsedShape(tmpl);
    ParsedNamed(ss);
    CompiledMeaning(ss, ops, pool);
  }

  lemma ParsedNamed(ss: seq<Segment>)
    requires ss == [Literal(EOF)] || SegmentsOk(ss)
    ensures Named(ss)
  {
    if SegmentsOk(ss) {
      forall k | 0 <= k < |ss| ensures NamedSegment(ss[k]) {
        SegmentOkNamed(ss[k]);
      }
    }
  }

  // ---- concatenations and captures -----------------------------------------------------

  predicate IsPush(o: Op) {
    o.code in {OP_PUSH, OP_PUSH_M, OP_LIT_PUSH}
  }

  predicate AllPushes(raw: seq<Op>) {
    forall k :: 0 <= k < |raw| ==> IsPush(raw[k])
  }

  /** At `i` the operations `body` right before are joined, all of them pushes, and then the path is captured. */
  predicate JoinsAt(raw: seq<Op>, i: nat, body: seq<Op>, path: string) {
    && |body| <= i < |raw| - 1
    && raw[i - |body|..i] == body && AllPushes(body)
    && raw[i] == Op(OP_CONCAT_N, "", |body|) && raw[i + 1] == Op(OP_CAPTURE, path, 0)
  }

  /** The operation at `i` is the concatenation of the variable at `k`: behind the operations of the segments before
      it come one push for each segment of its body, all of which are joined, and then its path is captured. */
  predicate JoinsVariable(ss: seq<Segment>, i: nat, k: nat)
    requires k < |ss|
  {
    && ss[k].Variable? && |RawAll(ss[k].segments)| == |ss[k].segments|
    && i == |RawAll(ss[..k])| + |ss[k].segments|
    && JoinsAt(RawAll(ss), i, RawAll(ss[k].segments), ss[k].path)
  }

  lemma {:induction false} FlatPushes(body: seq<Segment>)
    requires AllFlat(body)
    ensures |RawAll(body)| == |body| && AllPushes(RawAll(body))
    decreases |body|
  {
    if body != [] {
      FlatPushes(body[1..]);
      assert |RawOps(body[0])| == 1 && IsPush(RawOps(body[0])[0]);
    }
  }

  /** In the operations of a parsed template every concatenation joins exactly the pushes of its own variable. */
  lemma {:induction false} ConcatJoinsOwnPushes(ss: seq<Segment>, i: nat) returns (k: nat)
    requires OkIn(InSegments, ss)
    requires i < |RawAll(ss)| && RawAll(ss)[i].code == OP_CONCAT_N
    ensures k < |ss| && JoinsVariable(ss, i, k)
    decreases |ss|
  {
    hide *;
    RawSplit(ss, i);
    OkTail(ss);
    var first, rest := RawOps(ss[0]), RawAll(ss[1..]);
    if i < |first| {
      k := 0;
      FirstJoins(ss, i);
    } else {
      var j := ConcatJoinsOwnPushes(ss[1..], i - |first|);
      k := j + 1;
      LaterJoins(ss, i, j);
    }
  }

  lemma RawSplit(ss: seq<Segment>, i: nat)
    requires i < |RawAll(ss)|
    ensures ss != [] && RawAll(ss) == RawOps(ss[0]) + RawAll(ss[1..])
  {
  }

  lemma OkTail(ss: seq<Segment>)
    requires OkIn(InSegments, ss) && ss != []
    ensures SegmentOk(ss[0]) && OkIn(InSegments, ss[1..])
  {
    hide SegmentOk, FlatOk;
  }

  lemma FirstJoins(ss: seq<Segment>, i: nat)
    requires ss != [] && SegmentOk(ss[0]) && i < |RawOps(ss[0])| && RawOps(ss[0])[i].code == OP_CONCAT_N
    ensures JoinsVariable(ss, i, 0)
  {
    var s := ss[0];
    if s.Variable? {
      FlatPushes(s.segments);
      RawEnds(ss);
      var body := RawAll(s.segments);
      assert RawOps(s) == body + [Op(OP_CONCAT_N, "", |body|), Op(OP_CAPTURE, s.path, 0)];
      hide *;
      PushesOnly(body, i, s.path);
      JoinsFirst(body, s.path, RawAll(ss[1..]));
      FirstIsVariable(ss, i);
    }
  }

  lemma PushesOnly(body: seq<Op>, i: nat, path: string)
    requires AllPushes(body)
    requires var ops := body + [Op(OP_CONCAT_N, "", |body|), Op(OP_CAPTURE, path, 0)]; i < |ops| && ops[i].code == OP_CONCAT_N
    ensures i == |body|
  {
  }

  lemma JoinsFirst(body: seq<Op>, path: string, rest: seq<Op>)
    requires AllPushes(body)
    ensures JoinsAt(body + [Op(OP_CONCAT_N, "", |body|), Op(OP_CAPTURE, path, 0)] + rest, |body|, body, path)
  {
    hide AllPushes;
    var all := body + [Op(OP_CONCAT_N, "", |body|), Op(OP_CAPTURE, path, 0)] + rest;
    assert all[0..|body|] == body;
  }

  lemma FirstIsVariable(ss: seq<Segment>, i: nat)
    requires ss != [] && ss[0].Variable? && |RawAll(ss[0].segments)| == |ss[0].segments| == i && RawAll(ss[..0]) == []
    requires JoinsAt(RawAll(ss), i, RawAll(ss[0].segments), ss[0].path)
    ensures JoinsVariable(ss, i, 0)
  {
    hide RawAll, JoinsAt;
  }

  lemma RawEnds(ss: seq<Segment>)
    requires ss != []
    ensures RawAll(ss[..0]) == [] && RawAll(ss) == RawOps(ss[0]) + RawAll(ss[1..])
  {
  }

  lemma LaterJoins(ss: seq<Segment>, i: nat, j: nat)
    requires ss != [] && i >= |RawOps(ss[0])| && j < |ss| - 1 && JoinsVariable(ss[1..], i - |RawOps(ss[0])|, j)
    ensures JoinsVariable(ss, i, j + 1)
  {
    hide RawOps, RawAll, JoinsAt;
    RawEnds(ss);
    RawEnds(ss[..j + 2]);
    assert ss[..j + 1][1..] == ss[1..][..j] && ss[1..][j] == ss[j + 1];
    RawEnds(ss[..j + 1]);
    JoinsShift(RawOps(ss[0]), RawAll(ss[1..]), i - |RawOps(ss[0])|, RawAll(ss[j + 1].segments), ss[j + 1].path);
  }

  lemma JoinsShift(first: seq<Op>, rest: seq<Op>, i: nat, body: seq<Op>, path: string)
    requires JoinsAt(rest, i, body, path)
    ensures JoinsAt(first + rest, |first| + i, body, path)
  {
    hide AllPushes;
    var all, n := first + rest, |first|;
    assert all[n + i] == rest[i] && all[n + i + 1] == rest[i + 1];
    assert all[n + i - |body|..n + i] == rest[i - |body|..i];
  }

  /** The field paths a template binds, in order. */
  function FieldPaths(ss: seq<Segment>): seq<string> {
    if ss == [] then []
    else (if ss[0].Variable? then [ss[0].path] else []) + FieldPaths(ss[1..])
  }

  lemma {:induction false} CapturesAppend(a: seq<Op>, b: seq<Op>)
    ensures Captures(a + b) == Captures(a) + Captures(b)
    decreases |b|
  {
    if b == [] {
      assert a + b == a;
    } else {
      assert (a + b)[..|a + b| - 1] == a + b[..|b| - 1];
      CapturesAppend(a, b[..|b| - 1]);
    }
  }

  lemma {:induction false} NoCaptures(raw: seq<Op>)
    requires AllPushes(raw)
    ensures Captures(raw) == []
    decreases |raw|
  {
    if raw != [] { NoCaptures(raw[..|raw| - 1]); }
  }

  /** Fields of a parsed template lists its variables' paths in order. */
  lemma {:induction false} FieldsInOrder(ss: seq<Segment>)
    requires OkIn(InSegments, ss)
    ensures Captures(RawAll(ss)) == FieldPaths(ss)
    decreases |ss|
  {
    if ss != [] {
      assert SegmentOk(ss[0]);
      assert forall k :: 0 <= k < |ss| - 1 ==> ss[1..][k] == ss[k + 1];
      hide RawOps, Captures;
      FieldsInOrder(ss[1..]);
      CapturesAppend(RawOps(ss[0]), RawAll(ss[1..]));
      CapturesOf(ss[0]);
    }
  }

  lemma CapturesOf(s: Segment)
    requires SegmentOk(s)
    ensures Captures(RawOps(s)) == if s.Variable? then [s.path] else []
  {
    if s.Variable? {
      SegmentOkNamed(s);
      var cat, cap := Op(OP_CONCAT_N, "", |s.segments|), Op(OP_CAPTURE, s.path, 0);
      assert RawOps(s) == RawAll(s.segments) + [cat, cap];
      hide SegmentOk, RawOps;
      CapturesOfTwo(cat, cap);
      FlatPushes(s.segments);
      hide *;
      NoCaptures(RawAll(s.segments));
      CapturesAppend(RawAll(s.segments), [cat, cap]);
    } else {
      assert |RawOps(s)| == 1 && IsPush(RawOps(s)[0]);
      NoCaptures(RawOps(s));
    }
  }

  lemma CodesDiffer()
    ensures OP_CONCAT_N != OP_CAPTURE
  {
  }

  lemma CapturesOfTwo(cat: Op, cap: Op)
    requires cat.code == OP_CONCAT_N && cap.code == OP_CAPTURE && cap.str != EOF
    ensures Captures([cat, cap]) == [cap.str]
  {
    hide *;
    EncodesNothing();
    OneMore([], cat);
    OneMore([cat], cap);
    StoredOf(cap.str);
    CodesDiffer();
    assert [] + [cat] == [cat] && [cat] + [cap] == [cat, cap];
  }
}
