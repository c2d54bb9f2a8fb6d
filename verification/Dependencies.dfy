/** The dependency closure of reflection/resolver.go and the set helpers of reflection/util.go. */
module Dependencies {
  import opened Text

  type Bytes = seq<bv8>

  /** A parsed file descriptor: its path and the paths it imports. */
  datatype File = File(name: string, deps: seq<string>)

  datatype Bundle = Bundle(name: string, proto: Bytes)

  datatype Batch = Batch(files: seq<File>, bundles: seq<Bundle>)

  datatype Outcome = Complete | Failed | NotProvided(missing: set<string>) | LimitReached

  function NamesOf(files: seq<File>): set<string> {
    set f | f in files :: f.name
  }

  function DepsOf(files: seq<File>): set<string> {
    set f, d | f in files && d in f.deps :: d
  }

  /** Every import is among the files. */
  ghost predicate Closed(files: seq<File>) {
    DepsOf(files) <= NamesOf(files)
  }

  /** The raw bytes beside each file are its own. */
  ghost predicate Aligned(files: seq<File>, bundles: seq<Bundle>, decode: Bytes -> Option<File>) {
    && |files| == |bundles|
    && forall i :: 0 <= i < |files| ==> bundles[i].name == files[i].name && decode(bundles[i].proto) == Some(files[i])
  }

  predicate DistinctNames(files: seq<File>) {
    forall i, j :: 0 <= i < j < |files| ==> files[i].name != files[j].name
  }

  /** The parsed files in order; None when one does not parse. */
  function DecodeAll(raw: seq<Bytes>, decode: Bytes -> Option<File>): (r: Option<seq<File>>)
    ensures r.Some? ==> |r.value| == |raw| && forall i :: 0 <= i < |raw| ==> decode(raw[i]) == Some(r.value[i])
    ensures r.None? ==> exists i :: 0 <= i < |raw| && decode(raw[i]).None?
    decreases |raw|
  {
    if raw == [] then Some([])
    else
      match decode(raw[0])
      case None => None
      case Some(f) =>
        match DecodeAll(raw[1..], decode)
        case None => None
        case Some(more) => Some([f] + more)
  }

  /** The files a round keeps: those whose names were not present before it. */
  function Kept(files: seq<File>, present: set<string>): (r: seq<File>)
    ensures forall f :: f in r <==> f in files && f.name !in present
    decreases |files|
  {
    if files == [] then []
    else
      var last := files[|files| - 1];
      var front := Kept(files[..|files| - 1], present);
      assert files == files[..|files| - 1] + [last];
      if last.name in present then front else front + [last]
  }

  /** No two blobs of an answer decode to files of one name. */
  predicate DistinctBlobs(raw: seq<Bytes>, decode: Bytes -> Option<File>) {
    forall i, j :: 0 <= i < j < |raw| ==> !SameName(decode(raw[i]), decode(raw[j]))
  }

  predicate SameName(a: Option<File>, b: Option<File>) {
    a.Some? && b.Some? && a.value.name == b.value.name
  }

  /** Whatever is there twice was present before. */
  predicate NoNewRepeat(files: seq<File>, present: set<string>) {
    forall i, j :: 0 <= i < j < |files| && files[i].name == files[j].name ==> files[i].name in present
  }

  type Answers = seq<seq<string>> -> Option<seq<Bytes>>

  /** The files of the answer to the last batch asked for; none when there is no answer or it does not parse. */
  function Answered(answer: Answers, decode: Bytes -> Option<File>, asked: seq<seq<string>>): seq<File> {
    match answer(asked)
    case None => []
    case Some(raw) => match DecodeAll(raw, decode) case None => [] case Some(files) => files
  }

  /** What the answers to all batches behind the first `n` add to the files. */
  function Gathered(answer: Answers, decode: Bytes -> Option<File>, files0: seq<File>, n: nat, asked: seq<seq<string>>): seq<File>
    decreases |asked|
  {
    if |asked| <= n then files0
    else
      var before := Gathered(answer, decode, files0, n, asked[..|asked| - 1]);
      before + Kept(Answered(answer, decode, asked), NamesOf(before))
  }

  /** The last answer names no file twice that was not kept before it. */
  ghost predicate NoneTwice(answer: Answers, decode: Bytes -> Option<File>, files0: seq<File>, n: nat, asked: seq<seq<string>>) {
    asked != [] ==> NoNewRepeat(Answered(answer, decode, asked), NamesOf(Gathered(answer, decode, files0, n, asked[..|asked| - 1])))
  }

  /** No answer behind the first `n` does. */
  ghost predicate NoAnswerRepeats(answer: Answers, decode: Bytes -> Option<File>, files0: seq<File>, n: nat, asked: seq<seq<string>>) {
    forall k :: n < k <= |asked| ==> NoneTwice(answer, decode, files0, n, asked[..k])
  }

  // ---- what a retrieval comes to ---------------------------------------------------------

  /** The last batch was answered with files that parse. */
  predicate Parses(answer: Answers, decode: Bytes -> Option<File>, asked: seq<seq<string>>) {
    answer(asked).Some? && DecodeAll(answer(asked).value, decode).Some?
  }

  /** The names of the last batch that its answer has no file for. */
  function Left(answer: Answers, decode: Bytes -> Option<File>, asked: seq<seq<string>>): set<string>
    requires asked != []
  {
    Elements(asked[|asked| - 1]) - NamesOf(Answered(answer, decode, asked))
  }

  /** What is to be asked for next: the imports of the files at the start, and later of those of the last answer, kept
      or not, that are not among the files. */
  function Wanted(answer: Answers, decode: Bytes -> Option<File>, files0: seq<File>, n: nat, asked: seq<seq<string>>): set<string> {
    DepsOf(if |asked| <= n then files0 else Answered(answer, decode, asked)) - NamesOf(Gathered(answer, decode, files0, n, asked))
  }

  /** A round that the next one may follow. */
  predicate Fulfilled(answer: Answers, decode: Bytes -> Option<File>, n: nat, asked: seq<seq<string>>) {
    |asked| > n ==> Parses(answer, decode, asked) && Left(answer, decode, asked) == {}
  }

  /** The last batch asks for what was wanted, each name once, with nothing left from before. */
  predicate AsksWanted(answer: Answers, decode: Bytes -> Option<File>, files0: seq<File>, n: nat, asked: seq<seq<string>>)
    requires asked != []
  {
    var before, names := asked[..|asked| - 1], asked[|asked| - 1];
    && NoDups(names) && names != [] && Elements(names) == Wanted(answer, decode, files0, n, before)
    && Fulfilled(answer, decode, n, before)
  }

  /** Every batch behind the first `n` does. */
  ghost predicate AllAskWanted(answer: Answers, decode: Bytes -> Option<File>, files0: seq<File>, n: nat, asked: seq<seq<string>>) {
    forall k :: n < k <= |asked| ==> AsksWanted(answer, decode, files0, n, asked[..k])
  }

  /** How it ends, told from the batches and their answers. */
  function Verdict(answer: Answers, decode: Bytes -> Option<File>, files0: seq<File>, n: nat, asked: seq<seq<string>>): Outcome {
    if |asked| > n && !Parses(answer, decode, asked) then Failed
    else if |asked| > n && Left(answer, decode, asked) != {} then NotProvided(Left(answer, decode, asked))
    else if Wanted(answer, decode, files0, n, asked) != {} then LimitReached
    else Complete
  }

  /** Without methods wanted nothing is asked for, so that any import that is missing stays so. */
  function UnaskedVerdict(files0: seq<File>, limit: int): Outcome {
    var missing := DepsOf(files0) - NamesOf(files0);
    if missing == {} then Complete else if limit > 0 then NotProvided(missing) else LimitReached
  }

  /** The outcome of a whole retrieval: at most `limit` batches, and fewer only when the last one settles it. */
  ghost predicate Settled(onlyServices: bool, limit: int, answer: Answers, decode: Bytes -> Option<File>, files0: seq<File>,
                          asked0: seq<seq<string>>, asked: seq<seq<string>>, r: Outcome)
  {
    if onlyServices then asked == asked0 && r == UnaskedVerdict(files0, limit)
    else
      var n, rounds := |asked0|, |asked| - |asked0|;
      && asked0 <= asked && AllAskWanted(answer, decode, files0, n, asked)
      && (rounds <= limit || rounds == 0) && (r == LimitReached ==> rounds >= limit)
      && r == Verdict(answer, decode, files0, n, asked)
  }

  // ---- breadth-first levels ------------------------------------------------------------

  type World = map<string, File>

  function Imports(world: World, names: set<string>): set<string> {
    set n, d | n in names && n in world && d in world[n].deps :: d
  }

  /** The files at most `k` imports away. */
  function Within(world: World, start: set<string>, k: nat): set<string> {
    if k == 0 then start else Within(world, start, k - 1) + Imports(world, Within(world, start, k - 1))
  }

  function Level(world: World, start: set<string>, k: nat): set<string> {
    Within(world, start, k + 1) - Within(world, start, k)
  }

  ghost predicate Reachable(world: World, start: set<string>, name: string) {
    exists k: nat :: name in Within(world, start, k)
  }

  /** Imports stay in the world, and files are known by their names. */
  ghost predicate ClosedWorld(world: World) {
    && (forall n :: n in world ==> world[n].name == n)
    && Imports(world, world.Keys) <= world.Keys
  }

  lemma {:induction false} WithinGrows(world: World, start: set<string>, j: nat, k: nat)
    requires j <= k
    ensures Within(world, start, j) <= Within(world, start, k)
    decreases k
  {
    if j < k { WithinGrows(world, start, j, k - 1); }
  }

  /** Once a level is empty nothing lies farther. */
  lemma {:induction false} EmptyLevelLast(world: World, start: set<string>, j: nat, k: nat)
    requires Level(world, start, j) == {} && j <= k
    ensures Within(world, start, k) == Within(world, start, j)
    decreases k
  {
    WithinGrows(world, start, j, j + 1);
    assert Within(world, start, j + 1) == Within(world, start, j);
    if j < k { EmptyLevelLast(world, start, j, k - 1); }
  }

  /** What is reachable and how far is a matter of the first empty level. */
  lemma LevelsDecide(world: World, start: set<string>, limit: nat)
    ensures (exists name :: Reachable(world, start, name) && name !in Within(world, start, limit))
              <==> Level(world, start, limit) != {}
    ensures Level(world, start, limit) == {} ==>
              forall name :: Reachable(world, start, name) <==> name in Within(world, start, limit)
  {
    if Level(world, start, limit) == {} {
      forall name | Reachable(world, start, name) ensures name in Within(world, start, limit) {
        var k: nat :| name in Within(world, start, k);
        if k <= limit { WithinGrows(world, start, k, limit); } else { EmptyLevelLast(world, start, limit, k); }
      }
    } else {
      var name :| name in Level(world, start, limit);
      assert name in Within(world, start, limit + 1);
      assert Reachable(world, start, name);
    }
  }

  // ---- the client side -----------------------------------------------------------------

  /** The reflection server: what it answers may depend on everything asked so far. */
  class Server {
    const answer: Answers
    const decode: Bytes -> Option<File>
    var asked: seq<seq<string>>

    constructor (answer: Answers, decode: Bytes -> Option<File>)
      ensures this.answer == answer && this.decode == decode && asked == []
    {
      this.answer, this.decode, asked := answer, decode, [];
    }

    /** One batch of FileByFilename requests. */
    method FilesByName(names: seq<string>) returns (r: Option<seq<Bytes>>)
      modifies this
      ensures asked == old(asked) + [names] && r == answer(asked)
    {
      asked := asked + [names];
      r := answer(asked);
    }
  }

  predicate NoDups(names: seq<string>) {
    forall i, j :: 0 <= i < j < |names| ==> names[i] != names[j]
  }

  /** The answer parses to exactly the named files of the world, in any order. */
  ghost predicate ExactAnswer(raw: Option<seq<Bytes>>, names: seq<string>, world: World, decode: Bytes -> Option<File>) {
    && raw.Some? && DecodeAll(raw.value, decode).Some?
    && ExactFiles(DecodeAll(raw.value, decode).value, Elements(names), world)
  }

  ghost predicate ExactFiles(files: seq<File>, names: set<string>, world: World) {
    && DistinctNames(files) && NamesOf(files) == names
    && forall f :: f in files ==> f.name in world && world[f.name] == f
  }

  /** The server answers every batch of known names with exactly those files. */
  ghost predicate Exact(c: Server, world: World) {
    forall asked :: asked != [] && NoDups(asked[|asked| - 1]) && Elements(asked[|asked| - 1]) <= world.Keys ==>
                      ExactAnswer(c.answer(asked), asked[|asked| - 1], world, c.decode)
  }

  /** A set of names that is changed in place. */
  class NameSet {
    var names: set<string>

    constructor ()
      ensures names == {}
    {
      names := {};
    }
  }

  method UpdatePresent(files: seq<File>, present: NameSet)
    modifies present
    ensures present.names == old(present.names) + NamesOf(files)
  {
    for i := 0 to |files|
      invariant present.names == old(present.names) + NamesOf(files[..i])
    {
      present.names := present.names + {files[i].name};
      assert files[..i + 1] == files[..i] + [files[i]];
    }
    assert files[..|files|] == files;
  }

  method GrowMissing(files: seq<File>, present: NameSet, missing: NameSet)
    requires present != missing
    modifies missing
    ensures missing.names == old(missing.names) + (DepsOf(files) - present.names)
  {
    for i := 0 to |files|
      invariant missing.names == old(missing.names) + (DepsOf(files[..i]) - present.names)
    {
      var deps := files[i].deps;
      for j := 0 to |deps|
        invariant missing.names == old(missing.names) + (DepsOf(files[..i]) - present.names) + (Elements(deps[..j]) - present.names)
      {
        if deps[j] !in present.names {
          missing.names := missing.names + {deps[j]};
        }
        assert deps[..j + 1] == deps[..j] + [deps[j]];
      }
      assert deps[..|deps|] == deps;
      assert files[..i + 1] == files[..i] + [files[i]];
      assert DepsOf(files[..i + 1]) == DepsOf(files[..i]) + Elements(deps);
    }
    assert files[..|files|] == files;
  }

  method ShrinkMissing(files: seq<File>, missing: NameSet)
    modifies missing
    ensures missing.names == old(missing.names) - NamesOf(files)
  {
    for i := 0 to |files|
      invariant missing.names == old(missing.names) - NamesOf(files[..i])
    {
      missing.names := missing.names - {files[i].name};
      assert files[..i + 1] == files[..i] + [files[i]];
    }
    assert files[..|files|] == files;
  }

  /** The descriptors and their bundles, both grown in place. */
  class Collected {
    var files: seq<File>
    var bundles: seq<Bundle>

    constructor (files: seq<File>, bundles: seq<Bundle>)
      ensures this.files == files && this.bundles == bundles
    {
      this.files, this.bundles := files, bundles;
    }

    /** Keeps the files of a batch that were not present before it. */
    method KeepNew(batch: Batch, present: NameSet, ghost decode: Bytes -> Option<File>)
      requires Aligned(files, bundles, decode) && Aligned(batch.files, batch.bundles, decode)
      modifies this
      ensures files == old(files) + Kept(batch.files, present.names)
      ensures Aligned(files, bundles, decode) && old(bundles) <= bundles
    {
      hide *;
      KeptNothing(files, present.names);
      assert batch.files[..0] == [];
      for i := 0 to |batch.files|
        invariant files == old(files) + Kept(batch.files[..i], present.names)
        invariant Aligned(files, bundles, decode) && old(bundles) <= bundles
      {
        var fd := batch.files[i];
        KeptStep(batch.files, i, present.names);
        if fd.name !in present.names {
          OneAligned(files, bundles, batch, i, decode);
          files := files + [fd];
          bundles := bundles + [batch.bundles[i]];
        }
      }
      assert batch.files[..|batch.files|] == batch.files;
    }
  }

  lemma KeptNothing(files: seq<File>, present: set<string>)
    ensures files + Kept([], present) == files
  {
  }

  lemma KeptStep(files: seq<File>, i: nat, present: set<string>)
    requires i < |files|
    ensures Kept(files[..i + 1], present) == Kept(files[..i], present) + if files[i].name in present then [] else [files[i]]
  {
    assert files[..i + 1][..i] == files[..i];
  }

  lemma OneAligned(files: seq<File>, bundles: seq<Bundle>, batch: Batch, i: nat, decode: Bytes -> Option<File>)
    requires Aligned(files, bundles, decode) && Aligned(batch.files, batch.bundles, decode) && i < |batch.files|
    ensures i < |batch.bundles| && Aligned(files + [batch.files[i]], bundles + [batch.bundles[i]], decode)
  {
  }

  class Resolver {
    const onlyServices: bool
    const recursionLimit: int

    constructor (onlyServices: bool, recursionLimit: int)
      ensures this.onlyServices == onlyServices && this.recursionLimit == recursionLimit
    {
      this.onlyServices, this.recursionLimit := onlyServices, recursionLimit;
    }

    /** The files of one batch, every one kept: the set of processed names stays empty, so nothing is dropped. */
    method FileDescriptors(c: Server, names: seq<string>) returns (r: Option<Batch>)
      modifies c
      ensures onlyServices ==> r == Some(Batch([], [])) && c.asked == old(c.asked)
      ensures !onlyServices ==>
                && c.asked == old(c.asked) + [names]
                && (r.Some? <==> c.answer(c.asked).Some? && DecodeAll(c.answer(c.asked).value, c.decode).Some?)
                && (r.Some? ==> DecodeAll(c.answer(c.asked).value, c.decode) == Some(r.value.files))
                && (r.Some? ==> (DistinctNames(r.value.files) <==> DistinctBlobs(c.answer(c.asked).value, c.decode)))
      ensures r.Some? ==> Aligned(r.value.files, r.value.bundles, c.decode)
    {
      if onlyServices {
        return Some(Batch([], []));
      }
      var raw := c.FilesByName(names);
      if raw.None? {
        return None;
      }
      var processed: set<string> := {};
      var files, bundles := [], [];
      for i := 0 to |raw.value|
        invariant processed == {}
        invariant |files| == |bundles| == i
        invariant forall k :: 0 <= k < i ==> c.decode(raw.value[k]) == Some(files[k]) && bundles[k] == Bundle(files[k].name, raw.value[k])
      {
        var fd := c.decode(raw.value[i]);
        if fd.None? {
          assert DecodeAll(raw.value, c.decode).None?;
          return None;
        }
        if fd.value.name in processed {
          continue;
        }
        files := files + [fd.value];
        bundles := bundles + [Bundle(fd.value.name, raw.value[i])];
      }
      DecodedAll(raw.value, c.decode, files);
      DecodedDistinct(raw.value, c.decode);
      return Some(Batch(files, bundles));
    }

    /** One round: the missing files are asked for, the new ones are kept, and their imports become the missing ones. */
    method Round(c: Server, kept: Collected, present: NameSet, missing: NameSet,
                 ghost i: nat, ghost files0: seq<File>, ghost asked0: seq<seq<string>>, ghost world: World)
      returns (stop: Option<Outcome>)
      requires present != missing
      requires Aligned(kept.files, kept.bundles, c.decode) && Extends(files0, kept.files)
      requires Accounted(kept.files, present.names, missing.names)
      requires Gathering(c.answer, c.decode, files0, asked0, c.asked, kept.files)
      requires !onlyServices && KnownWorld(c, world, files0) ==>
                 AtLevel(world, NamesOf(files0), i, kept.files, present.names, missing.names)
                 && LevelsAsked(world, NamesOf(files0), asked0, c.asked, i)
      modifies c, kept, present, missing
      ensures Aligned(kept.files, kept.bundles, c.decode) && Extends(files0, kept.files) && old(kept.bundles) <= kept.bundles
      ensures stop.None? ==> Accounted(kept.files, present.names, missing.names)
      ensures !onlyServices && KnownWorld(c, world, files0) ==>
                stop.None?
                && AtLevel(world, NamesOf(files0), i + 1, kept.files, present.names, missing.names)
                && LevelsAsked(world, NamesOf(files0), asked0, c.asked, i + 1)
                && (DistinctNames(old(kept.files)) ==> DistinctNames(kept.files))
      ensures Gathering(c.answer, c.decode, files0, asked0, c.asked, kept.files)
      ensures stop.Some? ==> stop.value != Complete
      ensures onlyServices ==> c.asked == old(c.asked)
      ensures onlyServices && |old(missing.names)| > 0 ==> stop == Some(NotProvided(old(missing.names)))
      ensures !onlyServices ==>
                |c.asked| == |old(c.asked)| + 1
                && RoundEnds(c.answer, c.decode, old(c.asked), c.asked, old(missing.names), kept.files, missing.names, stop)
    {
      hide *;
      ghost var exact := !onlyServices && KnownWorld(c, world, files0);
      var missingList := ListOf(missing.names);
      ghost var asked1, files1, was, missed := c.asked, kept.files, present.names, missing.names;
      var batch := FileDescriptors(c, missingList);
      if exact {
        AskedLevel(world, files0, asked0, asked1, i, files1, was, missed, missingList);
        assert c.asked[|c.asked| - 1] == missingList;
        AnsweredLevel(c, world, files0, i, files1, was, missed, missingList, c.asked, batch);
      }
      AccountedNames(files1, was, missed);
      if !onlyServices { AnsweredIs(c.answer, c.decode, c.asked, batch); }
      GatherStep(c.answer, c.decode, files0, asked0, asked1, c.asked, files1, missingList, batch);
      if batch.None? {
        RoundFailed(c.answer, c.decode, asked1, c.asked, missingList, missed, kept.files, missing.names, batch);
        return Some(Failed);
      }
      var more := batch.value.files;
      if exact {
        NextLevel(world, NamesOf(files0), i, files1, was, missed, more);
        ExactDistinct(files1, was, missed, more, world);
        NoneLeft(missed - NamesOf(more));
      }
      stop := Absorb(kept, present, missing, batch.value, c.decode, files0);
      NamesGathered(files1, was, more, kept.files);
      if onlyServices {
        NothingCame(missed, more);
      } else {
        RoundDone(c.answer, c.decode, asked1, c.asked, missingList, missed, batch, kept.files, missing.names, stop);
      }
    }

    /** The part of a round behind the answer. */
    method Absorb(kept: Collected, present: NameSet, missing: NameSet, batch: Batch, ghost decode: Bytes -> Option<File>,
                  ghost files0: seq<File>)
      returns (stop: Option<Outcome>)
      requires present != missing
      requires Aligned(kept.files, kept.bundles, decode) && Aligned(batch.files, batch.bundles, decode)
      requires Extends(files0, kept.files) && Accounted(kept.files, present.names, missing.names)
      modifies kept, present, missing
      ensures kept.files == old(kept.files) + Kept(batch.files, old(present.names)) && old(kept.bundles) <= kept.bundles
      ensures Aligned(kept.files, kept.bundles, decode) && Extends(files0, kept.files)
      ensures present.names == old(present.names) + NamesOf(batch.files)
      ensures var left := old(missing.names) - NamesOf(batch.files);
              if |left| > 0 then missing.names == left && stop == Some(NotProvided(left))
              else stop == None && missing.names == left + (DepsOf(batch.files) - present.names)
      ensures stop.None? ==> Accounted(kept.files, present.names, missing.names)
    {
      hide *;
      ghost var files1, was, missed := kept.files, present.names, missing.names;
      kept.KeepNew(batch, present, decode);
      ExtendsMore(files0, files1, batch.files, was, missed);
      UpdatePresent(batch.files, present);
      ShrinkMissing(batch.files, missing);
      if |missing.names| > 0 {
        return Some(NotProvided(missing.names));
      }
      NothingLeft(missed, NamesOf(batch.files));
      GrowMissing(batch.files, present, missing);
      RoundAccounted(files1, was, missed, batch.files);
      return None;
    }

    /** Fetches imports round by round until none is missing or the rounds are used up. */
    method RetrieveDependencies(c: Server, kept: Collected, ghost world: World) returns (r: Outcome)
      requires Aligned(kept.files, kept.bundles, c.decode)
      modifies c, kept
      ensures Aligned(kept.files, kept.bundles, c.decode)
      ensures Extends(old(kept.files), kept.files) && old(kept.bundles) <= kept.bundles
      ensures Gathering(c.answer, c.decode, old(kept.files), old(c.asked), c.asked, kept.files)
      ensures DistinctNames(kept.files) <==>
                DistinctNames(old(kept.files))
                && NoAnswerRepeats(c.answer, c.decode, old(kept.files), |old(c.asked)|, c.asked)
      ensures r == Complete ==> Closed(kept.files)
      ensures Settled(onlyServices, recursionLimit, c.answer, c.decode, old(kept.files), old(c.asked), c.asked, r)
      ensures !onlyServices && KnownWorld(c, world, old(kept.files)) ==>
                ExactRun(world, old(kept.files), recursionLimit, old(c.asked), c.asked, kept.files, r)
    {
      hide *;
      var present := new NameSet();
      var missing := new NameSet();
      UpdatePresent(kept.files, present);
      GrowMissing(kept.files, present, missing);
      ghost var files0, asked0 := kept.files, c.asked;
      ghost var exact := !onlyServices && KnownWorld(c, world, files0);
      Start(files0, present.names, missing.names);
      NothingGathered(c.answer, c.decode, files0, asked0);
      if exact { StartExact(c, world, files0, asked0); }
      NothingAsked(c.answer, c.decode, files0, asked0);
      var i := 0;
      while i < recursionLimit && |missing.names| > 0
        invariant 0 <= i && (i <= recursionLimit || i == 0)
        invariant Aligned(kept.files, kept.bundles, c.decode) && Extends(files0, kept.files) && old(kept.bundles) <= kept.bundles
        invariant Accounted(kept.files, present.names, missing.names)
        invariant Gathering(c.answer, c.decode, files0, asked0, c.asked, kept.files)
        invariant exact && DistinctNames(files0) ==> DistinctNames(kept.files)
        invariant exact ==> AtLevel(world, NamesOf(files0), i, kept.files, present.names, missing.names)
                            && LevelsAsked(world, NamesOf(files0), asked0, c.asked, i)
        invariant onlyServices ==> c.asked == asked0 && i == 0 && missing.names == DepsOf(files0) - NamesOf(files0)
        invariant !onlyServices ==> Pursuing(c.answer, c.decode, files0, asked0, c.asked, i, missing.names)
        decreases recursionLimit - i
      {
        ghost var asked1, missed := c.asked, missing.names;
        var stop := Round(c, kept, present, missing, i, files0, asked0, world);
        if !onlyServices {
          PursuedMore(c.answer, c.decode, files0, asked0, asked1, c.asked, i, missed, kept.files, missing.names, stop, recursionLimit);
        } else {
          SettledUnasked(recursionLimit, c.answer, c.decode, files0, asked0, missed);
        }
        if stop.Some? {
          GatheringDistinct(c.answer, c.decode, files0, asked0, c.asked, kept.files);
          return stop.value;
        }
        i := i + 1;
      }
      GatheringDistinct(c.answer, c.decode, files0, asked0, c.asked, kept.files);
      if exact { EndExact(world, files0, recursionLimit, i, asked0, c.asked, kept.files, present.names, missing.names); }
      if onlyServices {
        SettledUnasked(recursionLimit, c.answer, c.decode, files0, asked0, missing.names);
      } else {
        PursuedToEnd(c.answer, c.decode, files0, asked0, c.asked, i, missing.names, recursionLimit);
      }
      if |missing.names| > 0 {
        return LimitReached;
      }
      AllThere(kept.files, present.names, missing.names);
      return Complete;
    }
  }

  /** Copies a set to a list in some order. */
  method ListOf(names: set<string>) returns (list: seq<string>)
    ensures NoDups(list) && Elements(list) == names
  {
    list := [];
    var todo := names;
    while todo != {}
      invariant todo <= names && NoDups(list) && Elements(list) == names - todo
      decreases todo
    {
      var dep :| dep in todo;
      assert dep !in Elements(list);
      todo := todo - {dep};
      assert Elements(list + [dep]) == Elements(list) + {dep};
      list := list + [dep];
    }
  }

  /** The old files stay in front, and what follows has other names. */
  ghost predicate Extends(files0: seq<File>, files: seq<File>) {
    files0 <= files && forall i :: |files0| <= i < |files| ==> files[i].name !in NamesOf(files0)
  }

  /** The files come from a closed world whose server answers exactly. */
  ghost predicate KnownWorld(c: Server, world: World, files: seq<File>) {
    ClosedWorld(world) && Exact(c, world) && forall f :: f in files ==> f.name in world && world[f.name] == f
  }

  /** Round `k` asked for the files `k + 1` imports away, each once. */
  ghost predicate LevelsAsked(world: World, start: set<string>, asked0: seq<seq<string>>, asked: seq<seq<string>>, rounds: nat) {
    && asked0 <= asked && |asked| == |asked0| + rounds
    && forall j :: |asked0| <= j < |asked| ==> NoDups(asked[j]) && Elements(asked[j]) == Level(world, start, j - |asked0|)
  }

  /** One breadth-first level a round, up to the first empty level or the limit, each file as in the world and none
      twice that was not there twice before. */
  ghost predicate ExactRun(world: World, files0: seq<File>, limit: int, asked0: seq<seq<string>>, asked: seq<seq<string>>,
                           files: seq<File>, r: Outcome)
  {
    && (DistinctNames(files0) ==> DistinctNames(files))
    && (forall f :: f in files ==> f.name in world && world[f.name] == f)
    && var start := NamesOf(files0);
    exists rounds: nat ::
      && LevelsAsked(world, start, asked0, asked, rounds) && (rounds <= limit || rounds == 0)
      && NamesOf(files) == Within(world, start, rounds)
      && if Level(world, start, rounds) == {} then r == Complete else r == LimitReached && rounds >= limit
  }

  // ---- the steps of the run ------------------------------------------------------------

  lemma Start(files: seq<File>, present: set<string>, missing: set<string>)
    requires present == NamesOf(files) && missing == DepsOf(files) - present
    ensures Accounted(files, present, missing) && Extends(files, files)
  {
  }

  lemma NoneLeft(left: set<string>)
    requires left == {}
    ensures |left| == 0
  {
  }

  lemma NothingLeft(missing: set<string>, found: set<string>)
    requires |missing - found| == 0
    ensures missing <= found
  {
    assert forall n :: n in missing && n !in found ==> n in missing - found;
  }

  lemma StartExact(c: Server, world: World, files: seq<File>, asked: seq<seq<string>>)
    requires KnownWorld(c, world, files)
    ensures AtLevel(world, NamesOf(files), 0, files, NamesOf(files), DepsOf(files) - NamesOf(files))
    ensures LevelsAsked(world, NamesOf(files), asked, asked, 0)
    ensures ClosedWorld(world) && NamesOf(files) <= world.Keys
  {
    FirstLevel(world, files);
  }

  lemma AskedLevel(world: World, files0: seq<File>, asked0: seq<seq<string>>, asked: seq<seq<string>>, i: nat,
                   files: seq<File>, present: set<string>, missing: set<string>, names: seq<string>)
    requires AtLevel(world, NamesOf(files0), i, files, present, missing)
    requires LevelsAsked(world, NamesOf(files0), asked0, asked, i) && NoDups(names) && Elements(names) == missing
    ensures LevelsAsked(world, NamesOf(files0), asked0, asked + [names], i + 1)
  {
    hide Within, NamesOf, NoDups, Elements;
    var asked' := asked + [names];
    assert asked'[..|asked|] == asked && asked'[..|asked0|] == asked[..|asked0|] == asked0;
    assert asked0 <= asked';
    forall j | |asked0| <= j < |asked'| ensures NoDups(asked'[j]) && Elements(asked'[j]) == Level(world, NamesOf(files0), j - |asked0|) {
      if j < |asked| {
        assert asked'[j] == asked[j];
      } else {
        assert asked'[j] == names && j - |asked0| == i;
      }
    }
  }

  lemma AnsweredLevel(c: Server, world: World, files0: seq<File>, i: nat, files: seq<File>, present: set<string>, missing: set<string>,
                      names: seq<string>, asked: seq<seq<string>>, batch: Option<Batch>)
    requires KnownWorld(c, world, files0) && AtLevel(world, NamesOf(files0), i, files, present, missing)
    requires NoDups(names) && Elements(names) == missing && asked != [] && asked[|asked| - 1] == names
    requires batch.Some? <==> c.answer(asked).Some? && DecodeAll(c.answer(asked).value, c.decode).Some?
    requires batch.Some? ==> DecodeAll(c.answer(asked).value, c.decode) == Some(batch.value.files)
    ensures batch.Some? && ExactFiles(batch.value.files, missing, world)
    ensures ClosedWorld(world) && NamesOf(files0) <= world.Keys
  {
    StartExact(c, world, files0, []);
    LevelsKnown(world, NamesOf(files0), i);
    hide Within, NamesOf, NoDups, DecodeAll, ExactFiles;
    assert ExactAnswer(c.answer(asked), names, world, c.decode);
  }

  lemma ExtendsMore(files0: seq<File>, files: seq<File>, more: seq<File>, present: set<string>, missing: set<string>)
    requires Extends(files0, files) && Accounted(files, present, missing)
    ensures Extends(files0, files + Kept(more, present))
  {
    var all := files + Kept(more, present);
    forall i | |files0| <= i < |all| ensures all[i].name !in NamesOf(files0) {
      if i >= |files| {
        assert all[i] in Kept(more, present);
        forall f | f in files0 ensures f in files { }
      } else {
        assert all[i] == files[i];
      }
    }
  }

  lemma EndExact(world: World, files0: seq<File>, limit: int, i: nat, asked0: seq<seq<string>>, asked: seq<seq<string>>,
                 files: seq<File>, present: set<string>, missing: set<string>)
    requires AtLevel(world, NamesOf(files0), i, files, present, missing)
    requires LevelsAsked(world, NamesOf(files0), asked0, asked, i) && (DistinctNames(files0) ==> DistinctNames(files))
    requires (i <= limit || i == 0) && (i >= limit || |missing| == 0)
    ensures ExactRun(world, files0, limit, asked0, asked, files, if |missing| > 0 then LimitReached else Complete)
  {
    hide LevelsAsked, Within, NamesOf, DistinctNames;
    assert |missing| == 0 <==> missing == {};
  }

  lemma AllThere(files: seq<File>, present: set<string>, missing: set<string>)
    requires Accounted(files, present, missing) && |missing| == 0
    ensures Closed(files)
  {
  }

  /** Against an exact server the outcome is a matter of distances alone: the limit is reached if and only if some
      reachable file lies farther, and otherwise the kept files are exactly the reachable ones, each once unless some
      was there twice before. */
  lemma ExactOutcome(world: World, files0: seq<File>, limit: int, asked0: seq<seq<string>>, asked: seq<seq<string>>,
                     files: seq<File>, r: Outcome)
    requires ExactRun(world, files0, limit, asked0, asked, files, r)
    ensures var start, n: nat := NamesOf(files0), if limit < 0 then 0 else limit;
            r == LimitReached <==> exists name :: Reachable(world, start, name) && name !in Within(world, start, n)
    ensures r != LimitReached ==>
              r == Complete && forall name :: name in NamesOf(files) <==> Reachable(world, NamesOf(files0), name)
    ensures forall f :: f in files ==> f.name in world && world[f.name] == f
    ensures DistinctNames(files0) ==> DistinctNames(files)
  {
    hide LevelsAsked, Within, NamesOf, Reachable, DistinctNames;
    var start := NamesOf(files0);
    var n: nat := if limit < 0 then 0 else limit;
    var rounds: nat :|
      && LevelsAsked(world, start, asked0, asked, rounds) && (rounds <= limit || rounds == 0)
      && NamesOf(files) == Within(world, start, rounds)
      && if Level(world, start, rounds) == {} then r == Complete else r == LimitReached && rounds >= limit;
    LevelsDecide(world, start, n);
    LevelsDecide(world, start, rounds);
    if Level(world, start, rounds) == {} {
      EmptyLevelLast(world, start, rounds, n);
      EmptyLevelLast(world, start, rounds, n + 1);
    }
  }

  lemma DecodedAll(raw: seq<Bytes>, decode: Bytes -> Option<File>, files: seq<File>)
    requires |files| == |raw| && forall i :: 0 <= i < |raw| ==> decode(raw[i]) == Some(files[i])
    ensures DecodeAll(raw, decode) == Some(files)
  {
    assert forall i :: 0 <= i < |raw| ==> decode(raw[i]).Some?;
    var all := DecodeAll(raw, decode).value;
    assert forall i :: 0 <= i < |raw| ==> Some(all[i]) == Some(files[i]);
    assert all == files;
  }

  // ---- what one round does -------------------------------------------------------------

  /** The files known so far are those of the world within `k` imports, and the next level is missing. */
  ghost predicate AtLevel(world: World, start: set<string>, k: nat, files: seq<File>, present: set<string>, missing: set<string>) {
    && present == Within(world, start, k) == NamesOf(files)
    && missing == Level(world, start, k)
    && present <= world.Keys
    && forall f :: f in files ==> f.name in world && world[f.name] == f
  }

  lemma KnownImports(world: World, files: seq<File>)
    requires forall f :: f in files ==> f.name in world && world[f.name] == f
    ensures DepsOf(files) == Imports(world, NamesOf(files))
  {
    forall d | d in DepsOf(files) ensures d in Imports(world, NamesOf(files)) {
      var f :| f in files && d in f.deps;
      assert f.name in NamesOf(files);
    }
    forall d | d in Imports(world, NamesOf(files)) ensures d in DepsOf(files) {
      var n :| n in NamesOf(files) && n in world && d in world[n].deps;
      var f :| f in files && f.name == n;
      assert f in files && d in f.deps;
    }
  }

  lemma ImportsJoin(world: World, a: set<string>, b: set<string>)
    ensures Imports(world, a + b) == Imports(world, a) + Imports(world, b)
  {
  }

  lemma LevelsKnown(world: World, start: set<string>, k: nat)
    requires ClosedWorld(world) && start <= world.Keys
    ensures Within(world, start, k) <= world.Keys && Level(world, start, k) <= world.Keys
    decreases k
  {
    if k > 0 { LevelsKnown(world, start, k - 1); }
    ImportsMonotone(world, Within(world, start, k), world.Keys);
  }

  lemma ImportsMonotone(world: World, a: set<string>, b: set<string>)
    requires a <= b
    ensures Imports(world, a) <= Imports(world, b)
  {
  }

  /** A batch with exactly the next level brings the files one level on. */
  lemma NextLevel(world: World, start: set<string>, k: nat, files: seq<File>, present: set<string>, missing: set<string>, more: seq<File>)
    requires ClosedWorld(world) && start <= world.Keys
    requires AtLevel(world, start, k, files, present, missing) && ExactFiles(more, missing, world)
    ensures Kept(more, present) == more
    ensures missing - NamesOf(more) == {}
    ensures var present' := present + NamesOf(more);
            AtLevel(world, start, k + 1, files + more, present', (missing - NamesOf(more)) + (DepsOf(more) - present'))
  {
    KeptAll(more, present);
    LevelsKnown(world, start, k + 1);
    KnownImports(world, more);
    var present', w := present + NamesOf(more), Within(world, start, k);
    assert NamesOf(files + more) == present';
    assert present' == Within(world, start, k + 1);
    // What the earlier files import is known by now.
    ImportsJoin(world, w, NamesOf(more));
    assert w + NamesOf(more) == present';
    assert Imports(world, w) <= present';
  }

  lemma {:induction false} KeptAll(files: seq<File>, present: set<string>)
    requires NamesOf(files) !! present
    ensures Kept(files, present) == files
    decreases |files|
  {
    if files != [] {
      var front := files[..|files| - 1];
      assert files == front + [files[|files| - 1]];
      assert files[|files| - 1].name in NamesOf(files);
      forall n | n in NamesOf(front) ensures n in NamesOf(files) {
        var f :| f in front && f.name == n;
        assert f in files;
      }
      KeptAll(front, present);
    }
  }

  /** At the start the files themselves are known and their imports beyond them are missing. */
  lemma FirstLevel(world: World, files: seq<File>)
    requires ClosedWorld(world) && forall f :: f in files ==> f.name in world && world[f.name] == f
    ensures AtLevel(world, NamesOf(files), 0, files, NamesOf(files), DepsOf(files) - NamesOf(files))
  {
    KnownImports(world, files);
  }

  // ---- any server ----------------------------------------------------------------------

  /** Every import is present or known to be missing, nothing missing is present, and present are just the names of the files. */
  ghost predicate Accounted(files: seq<File>, present: set<string>, missing: set<string>) {
    NamesOf(files) == present && DepsOf(files) <= present + missing && missing !! present
  }

  lemma RoundAccounted(files: seq<File>, present: set<string>, missing: set<string>, more: seq<File>)
    requires Accounted(files, present, missing) && missing <= NamesOf(more)
    ensures var present' := present + NamesOf(more);
            Accounted(files + Kept(more, present), present', DepsOf(more) - present')
  {
    var kept, present' := Kept(more, present), present + NamesOf(more);
    forall n | n in present' ensures n in NamesOf(files + kept) {
      if n in present {
        var f :| f in files && f.name == n;
        assert f in files + kept;
      } else {
        var f :| f in more && f.name == n;
        assert f in kept && f in files + kept;
      }
    }
    forall n | n in NamesOf(files + kept) ensures n in present' {
      var f :| f in files + kept && f.name == n;
      if f in files { assert n in NamesOf(files); } else { assert f in kept && f in more; }
    }
    forall d | d in DepsOf(files + kept) ensures d in present' || d in DepsOf(more) {
      var f :| f in files + kept && d in f.deps;
      if f in files { assert d in DepsOf(files); } else { assert f in kept && f in more; }
    }
  }

  // ---- any outcome -----------------------------------------------------------------------

  /** What one batch comes to. */
  ghost predicate RoundEnds(answer: Answers, decode: Bytes -> Option<File>, asked1: seq<seq<string>>, asked: seq<seq<string>>,
                            missed: set<string>, files: seq<File>, missing: set<string>, stop: Option<Outcome>)
  {
    && asked != [] && asked[..|asked| - 1] == asked1
    && NoDups(asked[|asked| - 1]) && Elements(asked[|asked| - 1]) == missed
    && if !Parses(answer, decode, asked) then stop == Some(Failed)
       else if Left(answer, decode, asked) != {} then stop == Some(NotProvided(Left(answer, decode, asked)))
       else stop == None && missing == DepsOf(Answered(answer, decode, asked)) - NamesOf(files)
  }

  lemma RoundFailed(answer: Answers, decode: Bytes -> Option<File>, asked1: seq<seq<string>>, asked: seq<seq<string>>, names: seq<string>,
                    missed: set<string>, files: seq<File>, missing: set<string>, batch: Option<Batch>)
    requires asked == asked1 + [names] && NoDups(names) && Elements(names) == missed && batch.None?
    requires batch.Some? <==> answer(asked).Some? && DecodeAll(answer(asked).value, decode).Some?
    ensures RoundEnds(answer, decode, asked1, asked, missed, files, missing, Some(Failed))
  {
    hide DecodeAll, NoDups, Elements, Left, Answered;
  }

  lemma RoundDone(answer: Answers, decode: Bytes -> Option<File>, asked1: seq<seq<string>>, asked: seq<seq<string>>, names: seq<string>,
                  missed: set<string>, batch: Option<Batch>, files: seq<File>, missing: set<string>, stop: Option<Outcome>)
    requires asked == asked1 + [names] && NoDups(names) && Elements(names) == missed && batch.Some?
    requires batch.Some? <==> answer(asked).Some? && DecodeAll(answer(asked).value, decode).Some?
    requires Answered(answer, decode, asked) == batch.value.files
    requires var left := missed - NamesOf(batch.value.files);
             if |left| > 0 then stop == Some(NotProvided(left))
             else stop == None && missing == left + (DepsOf(batch.value.files) - NamesOf(files))
    ensures RoundEnds(answer, decode, asked1, asked, missed, files, missing, stop)
  {
    hide DecodeAll, NoDups, Elements, Answered, NamesOf, DepsOf;
    var left := missed - NamesOf(batch.value.files);
    assert |left| > 0 <==> left != {};
  }

  lemma NamesGathered(files: seq<File>, present: set<string>, more: seq<File>, all: seq<File>)
    requires NamesOf(files) == present && all == files + Kept(more, present)
    ensures NamesOf(all) == present + NamesOf(more)
  {
    forall n | n in NamesOf(all) ensures n in present + NamesOf(more) {
      var f :| f in all && f.name == n;
      if f !in files { assert f in Kept(more, present) && f in more; }
    }
    forall n | n in present + NamesOf(more) ensures n in NamesOf(all) {
      if n in present {
        var f :| f in files && f.name == n;
        assert f in all;
      } else {
        var f :| f in more && f.name == n;
        assert f in Kept(more, present) && f in all;
      }
    }
  }

  lemma NothingCame(missed: set<string>, more: seq<File>)
    ensures more == [] ==> missed - NamesOf(more) == missed
  {
  }

  /** After `rounds` batches, each asking for what was wanted and answered in full. */
  ghost predicate Pursuing(answer: Answers, decode: Bytes -> Option<File>, files0: seq<File>, asked0: seq<seq<string>>,
                           asked: seq<seq<string>>, rounds: int, missing: set<string>)
  {
    && asked0 <= asked && |asked| == |asked0| + rounds && AllAskWanted(answer, decode, files0, |asked0|, asked)
    && Fulfilled(answer, decode, |asked0|, asked) && missing == Wanted(answer, decode, files0, |asked0|, asked)
  }

  lemma NothingAsked(answer: Answers, decode: Bytes -> Option<File>, files0: seq<File>, asked0: seq<seq<string>>)
    ensures Pursuing(answer, decode, files0, asked0, asked0, 0, DepsOf(files0) - NamesOf(files0))
  {
    hide Parses, Answered, AsksWanted;
  }

  lemma SettledUnasked(limit: int, answer: Answers, decode: Bytes -> Option<File>, files0: seq<File>, asked0: seq<seq<string>>, missing: set<string>)
    requires missing == DepsOf(files0) - NamesOf(files0)
    ensures |missing| > 0 && limit > 0 ==> Settled(true, limit, answer, decode, files0, asked0, asked0, NotProvided(missing))
    ensures |missing| > 0 && limit <= 0 ==> Settled(true, limit, answer, decode, files0, asked0, asked0, LimitReached)
    ensures |missing| == 0 ==> Settled(true, limit, answer, decode, files0, asked0, asked0, Complete)
  {
    hide DepsOf, NamesOf;
    assert |missing| > 0 <==> missing != {};
  }

  lemma MoreAskWanted(answer: Answers, decode: Bytes -> Option<File>, files0: seq<File>, n: nat, asked1: seq<seq<string>>, asked: seq<seq<string>>)
    requires asked != [] && asked[..|asked| - 1] == asked1 && AllAskWanted(answer, decode, files0, n, asked1)
    requires AsksWanted(answer, decode, files0, n, asked)
    ensures AllAskWanted(answer, decode, files0, n, asked)
  {
    hide AsksWanted;
    assert asked[..|asked|] == asked;
    assert forall k :: 0 <= k <= |asked1| ==> asked[..k] == asked1[..k];
  }

  lemma PursuedMore(answer: Answers, decode: Bytes -> Option<File>, files0: seq<File>, asked0: seq<seq<string>>,
                    asked1: seq<seq<string>>, asked: seq<seq<string>>, rounds: int, missed: set<string>, files: seq<File>,
                    missing: set<string>, stop: Option<Outcome>, limit: int)
    requires Pursuing(answer, decode, files0, asked0, asked1, rounds, missed) && |missed| > 0 && rounds < limit
    requires RoundEnds(answer, decode, asked1, asked, missed, files, missing, stop)
    requires Gathering(answer, decode, files0, asked0, asked, files)
    ensures stop.None? ==> Pursuing(answer, decode, files0, asked0, asked, rounds + 1, missing)
    ensures stop.Some? ==> Settled(false, limit, answer, decode, files0, asked0, asked, stop.value)
  {
    hide Parses, Answered, Gathered, DepsOf, NamesOf, NoDups, Elements, AllAskWanted;
    NonEmptyList(asked[|asked| - 1]);
    assert AsksWanted(answer, decode, files0, |asked0|, asked);
    MoreAskWanted(answer, decode, files0, |asked0|, asked1, asked);
  }

  lemma NonEmptyList(names: seq<string>)
    ensures |Elements(names)| > 0 ==> names != []
  {
  }

  lemma PursuedToEnd(answer: Answers, decode: Bytes -> Option<File>, files0: seq<File>, asked0: seq<seq<string>>,
                     asked: seq<seq<string>>, rounds: int, missing: set<string>, limit: int)
    requires Pursuing(answer, decode, files0, asked0, asked, rounds, missing)
    requires (rounds <= limit || rounds == 0) && (rounds >= limit || |missing| == 0)
    ensures Settled(false, limit, answer, decode, files0, asked0, asked, if |missing| > 0 then LimitReached else Complete)
  {
    hide Parses, Left, Wanted, AllAskWanted;
    assert |missing| > 0 <==> missing != {};
  }

  // ---- duplicates ----------------------------------------------------------------------

  lemma {:induction false} KeptRepeats(more: seq<File>, present: set<string>)
    ensures DistinctNames(Kept(more, present)) <==> NoNewRepeat(more, present)
    decreases |more|
  {
    hide *;
    if more == [] {
      NoRepeats(present);
    } else {
      var n := |more| - 1;
      var front, last := more[..n], more[n];
      KeptRepeats(front, present);
      assert more == front + [last] && more[..n + 1] == more;
      RepeatsStep(front, last, present);
      DistinctStep(Kept(front, present), last);
      KeptStep(more, n, present);
      if last.name in present {
        assert Kept(front, present) + [] == Kept(front, present);
      } else {
        KeptNames(front, present, last.name);
      }
    }
  }

  lemma NoRepeats(present: set<string>)
    ensures DistinctNames(Kept([], present)) && NoNewRepeat([], present)
  {
  }

  lemma KeptNames(files: seq<File>, present: set<string>, name: string)
    requires name !in present
    ensures name in NamesOf(Kept(files, present)) <==> name in NamesOf(files)
  {
    if name in NamesOf(files) {
      var f :| f in files && f.name == name;
      assert f in Kept(files, present);
    }
  }

  lemma RepeatsStep(front: seq<File>, last: File, present: set<string>)
    ensures NoNewRepeat(front + [last], present) <==>
              NoNewRepeat(front, present) && (last.name in present || last.name !in NamesOf(front))
  {
    var all, n := front + [last], |front|;
    if NoNewRepeat(all, present) {
      forall i, j | 0 <= i < j < n && front[i].name == front[j].name ensures front[i].name in present {
        assert all[i] == front[i] && all[j] == front[j];
      }
      if last.name in NamesOf(front) {
        var i :| 0 <= i < n && front[i].name == last.name;
        assert all[i] == front[i] && all[n] == last;
      }
    }
  }

  lemma DistinctStep(front: seq<File>, last: File)
    ensures DistinctNames(front + [last]) <==> DistinctNames(front) && last.name !in NamesOf(front)
  {
    var all, n := front + [last], |front|;
    assert all[n] == last && forall i :: 0 <= i < n ==> all[i] == front[i];
    if last.name in NamesOf(front) {
      var i :| 0 <= i < n && front[i].name == last.name;
      assert all[i].name == all[n].name;
    }
  }

  /** A round adds no second file of a name if and only if its answer names no file twice that was not present. */
  lemma KeptDistinct(files: seq<File>, more: seq<File>, present: set<string>)
    requires NamesOf(files) == present
    ensures DistinctNames(files + Kept(more, present)) <==> DistinctNames(files) && NoNewRepeat(more, present)
  {
    KeptRepeats(more, present);
    var kept := Kept(more, present);
    var all := files + kept;
    hide NoNewRepeat, Kept;
    assert forall i :: 0 <= i < |all| ==> all[i] == if i < |files| then files[i] else kept[i - |files|];
    if DistinctNames(all) {
      forall i, j | 0 <= i < j < |kept| ensures kept[i].name != kept[j].name {
        assert all[|files| + i] == kept[i] && all[|files| + j] == kept[j];
      }
    }
    forall i, j | 0 <= i < |files| && 0 <= j < |kept| ensures files[i].name != kept[j].name {
      assert files[i] in files && files[i].name in NamesOf(files);
      assert kept[j] in kept;
    }
  }

  /** Over a whole retrieval: no file is there twice if and only if none was before and no answer repeats a new name. */
  lemma {:induction false} GatheredDistinct(answer: Answers, decode: Bytes -> Option<File>, files0: seq<File>, n: nat, asked: seq<seq<string>>)
    requires n <= |asked|
    ensures DistinctNames(Gathered(answer, decode, files0, n, asked)) <==>
              DistinctNames(files0) && NoAnswerRepeats(answer, decode, files0, n, asked)
    decreases |asked|
  {
    hide Answered, DistinctNames, NoNewRepeat, NamesOf, Kept, NoneTwice;
    if |asked| > n {
      var m := |asked| - 1;
      var before := Gathered(answer, decode, files0, n, asked[..m]);
      GatheredDistinct(answer, decode, files0, n, asked[..m]);
      KeptDistinct(before, Answered(answer, decode, asked), NamesOf(before));
      RepeatsUpTo(answer, decode, files0, n, asked);
      NoneTwiceIs(answer, decode, files0, n, asked);
    }
  }

  lemma NoneTwiceIs(answer: Answers, decode: Bytes -> Option<File>, files0: seq<File>, n: nat, asked: seq<seq<string>>)
    requires asked != []
    ensures NoneTwice(answer, decode, files0, n, asked) <==>
              NoNewRepeat(Answered(answer, decode, asked), NamesOf(Gathered(answer, decode, files0, n, asked[..|asked| - 1])))
  {
    hide NoNewRepeat, Answered, Gathered, NamesOf;
  }

  lemma RepeatsUpTo(answer: Answers, decode: Bytes -> Option<File>, files0: seq<File>, n: nat, asked: seq<seq<string>>)
    requires n < |asked|
    ensures NoAnswerRepeats(answer, decode, files0, n, asked) <==>
              NoAnswerRepeats(answer, decode, files0, n, asked[..|asked| - 1]) && NoneTwice(answer, decode, files0, n, asked)
  {
    hide NoneTwice;
    var m := |asked| - 1;
    assert asked[..|asked|] == asked;
    assert forall k :: 0 <= k <= m ==> asked[..m][..k] == asked[..k];
  }

  /** The kept files are what the answers gave since `asked0`. */
  ghost predicate Gathering(answer: Answers, decode: Bytes -> Option<File>, files0: seq<File>, asked0: seq<seq<string>>,
                            asked: seq<seq<string>>, files: seq<File>)
  {
    asked0 <= asked && files == Gathered(answer, decode, files0, |asked0|, asked)
  }

  lemma NothingGathered(answer: Answers, decode: Bytes -> Option<File>, files0: seq<File>, asked0: seq<seq<string>>)
    ensures Gathering(answer, decode, files0, asked0, asked0, files0)
  {
  }

  lemma GatheringDistinct(answer: Answers, decode: Bytes -> Option<File>, files0: seq<File>, asked0: seq<seq<string>>,
                          asked: seq<seq<string>>, files: seq<File>)
    requires Gathering(answer, decode, files0, asked0, asked, files)
    ensures DistinctNames(files) <==> DistinctNames(files0) && NoAnswerRepeats(answer, decode, files0, |asked0|, asked)
  {
    hide DistinctNames, NoAnswerRepeats, Gathered;
    GatheredDistinct(answer, decode, files0, |asked0|, asked);
  }

  lemma GatherStep(answer: Answers, decode: Bytes -> Option<File>, files0: seq<File>, asked0: seq<seq<string>>,
                   asked1: seq<seq<string>>, asked: seq<seq<string>>, files: seq<File>, names: seq<string>, batch: Option<Batch>)
    requires Gathering(answer, decode, files0, asked0, asked1, files)
    requires || (asked == asked1 && batch == Some(Batch([], [])))
             || (asked == asked1 + [names] && Answered(answer, decode, asked) == if batch.Some? then batch.value.files else [])
    ensures Gathering(answer, decode, files0, asked0, asked, files + Kept(if batch.Some? then batch.value.files else [], NamesOf(files)))
    ensures batch.None? ==> Gathering(answer, decode, files0, asked0, asked, files)
  {
    hide Answered, Kept, NamesOf;
    KeptNothing(files, NamesOf(files));
    if asked != asked1 {
      assert asked[..|asked| - 1] == asked1;
    }
  }

  lemma AnsweredIs(answer: Answers, decode: Bytes -> Option<File>, asked: seq<seq<string>>, batch: Option<Batch>)
    requires batch.Some? <==> answer(asked).Some? && DecodeAll(answer(asked).value, decode).Some?
    requires batch.Some? ==> DecodeAll(answer(asked).value, decode) == Some(batch.value.files)
    ensures Answered(answer, decode, asked) == if batch.Some? then batch.value.files else []
  {
    hide DecodeAll;
  }

  lemma AccountedNames(files: seq<File>, present: set<string>, missing: set<string>)
    requires Accounted(files, present, missing)
    ensures NamesOf(files) == present
  {
  }

  lemma ExactDistinct(files: seq<File>, present: set<string>, missing: set<string>, more: seq<File>, world: World)
    requires Accounted(files, present, missing) && ExactFiles(more, missing, world)
    ensures DistinctNames(files) ==> DistinctNames(files + Kept(more, present))
  {
    KeptDistinct(files, more, present);
  }

  /** An answer's files have distinct names if and only if no two of its blobs decode to one name. */
  lemma DecodedDistinct(raw: seq<Bytes>, decode: Bytes -> Option<File>)
    requires DecodeAll(raw, decode).Some?
    ensures DistinctNames(DecodeAll(raw, decode).value) <==> DistinctBlobs(raw, decode)
  {
    var files := DecodeAll(raw, decode).value;
    hide DecodeAll;
    assert forall i :: 0 <= i < |raw| ==> decode(raw[i]) == Some(files[i]);
    if DistinctBlobs(raw, decode) {
      forall i, j | 0 <= i < j < |files| ensures files[i].name != files[j].name {
        assert !SameName(decode(raw[i]), decode(raw[j]));
      }
    }
  }

  lemma BothKept(f: File, present: set<string>)
    requires f.name !in present
    ensures Kept([f, f], present) == [f, f]
  {
    assert [f, f][..1] == [f] && [f][..0] == [];
    assert Kept([f], present) == [f];
  }

  /** The same blob twice in one answer decodes to two files, which are both kept when the first is. */
  lemma DuplicatesKept(b: Bytes, f: File, decode: Bytes -> Option<File>, answer: Answers, files: seq<File>, asked: seq<seq<string>>)
    requires decode(b) == Some(f) && f.name !in NamesOf(files) && asked != [] && answer(asked) == Some([b, b])
    ensures DecodeAll([b, b], decode) == Some([f, f]) && !DistinctBlobs([b, b], decode)
    ensures Gathered(answer, decode, files, |asked| - 1, asked) == files + [f, f] && !DistinctNames(files + [f, f])
  {
    hide DecodeAll, Kept, NamesOf;
    DecodedAll([b, b], decode, [f, f]);
    assert SameName(decode([b, b][0]), decode([b, b][1]));
    BothKept(f, NamesOf(files));
    var n := |files|;
    assert (files + [f, f])[n] == f && (files + [f, f])[n + 1] == f;
  }
}
