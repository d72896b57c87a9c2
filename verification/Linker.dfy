/** Linking of function imports: every import slot is filled by following import chains, each
    link of a chain remembered in the slot it fills, unknown host fields requested from a policy
    and remembered in the host module's own table. */
module Linker {
  import opened Wasm

  datatype Import = Import(module_: nat, field: nat, sig: Signature)

  datatype Entry = Defined(sig: Signature) | Imported(im: Import)

  /** A module by name (a number here): compiled, or a table of host functions. */
  datatype Source = WasmSource(entries: seq<Entry>, exports: map<nat, nat>) | HostSource(known: map<nat, Signature>)

  /** What a slot can hold: a function defined in a module, or a host function. */
  datatype Target = Nothing | InModule(m: nat, i: nat) | InHost(h: nat, field: nat)

  /** The modules by name, and the policy's answers for host fields that are not known. */
  datatype World = World(sources: seq<Source>, policy: (nat, nat) -> Option<Signature>)

  predicate IsWasm(w: World, m: nat) {
    m < |w.sources| && w.sources[m].WasmSource?
  }

  predicate IsHost(w: World, m: nat) {
    m < |w.sources| && w.sources[m].HostSource?
  }

  predicate ImportAt(w: World, m: nat, i: nat) {
    IsWasm(w, m) && i < |w.sources[m].entries| && w.sources[m].entries[i].Imported?
  }

  function ImportOf(w: World, m: nat, i: nat): Import
    requires ImportAt(w, m, i)
  {
    w.sources[m].entries[i].im
  }

  /** Export tables name functions that exist. */
  predicate WellFormed(w: World) {
    forall m, f :: 0 <= m < |w.sources| && w.sources[m].WasmSource? && f in w.sources[m].exports ==>
      w.sources[m].exports[f] < |w.sources[m].entries|
  }

  /** The slot of another module that import slot `i` of `m` refers to, if there is one. */
  predicate Refers(w: World, m: nat, i: nat, s: nat, j: nat) {
    && ImportAt(w, m, i) && s == ImportOf(w, m, i).module_ && IsWasm(w, s)
    && ImportOf(w, m, i).field in w.sources[s].exports && w.sources[s].exports[ImportOf(w, m, i).field] == j
  }

  /** The re-export graph has no cycle: `rank` decreases along it. */
  ghost predicate Acyclic(w: World, rank: (nat, nat) -> nat) {
    forall m, i, s, j :: Refers(w, m, i, s, j) ==> rank(s, j) < rank(m, i)
  }

  /** The definition at the end of the import chain of slot `i` of module `m`, found by nothing but
      following the chain. */
  ghost function Chain(w: World, rank: (nat, nat) -> nat, m: nat, i: nat): Target
    requires WellFormed(w) && Acyclic(w, rank) && IsWasm(w, m) && i < |w.sources[m].entries|
    decreases rank(m, i)
  {
    if w.sources[m].entries[i].Defined? then InModule(m, i)
    else
      var im := ImportOf(w, m, i);
      if im.module_ >= |w.sources| then Nothing
      else
        match w.sources[im.module_]
        case HostSource(known) =>
          if im.field in known || w.policy(im.module_, im.field).Some? then InHost(im.module_, im.field) else Nothing
        case WasmSource(_, exports) =>
          if im.field in exports then assert Refers(w, m, i, im.module_, exports[im.field]); Chain(w, rank, im.module_, exports[im.field]) else Nothing
  }

  /** `sig` is the signature the definition was declared with: in its module's own list of functions, by
      the host module that knows it, or by the policy's answer for a field no host module knows. */
  predicate Declares(w: World, t: Target, sig: Signature) {
    match t
    case Nothing => false
    case InModule(m, i) => IsWasm(w, m) && i < |w.sources[m].entries| && w.sources[m].entries[i] == Defined(sig)
    case InHost(h, field) =>
      && IsHost(w, h)
      && (field in w.sources[h].known ==> w.sources[h].known[field] == sig)
      && (field !in w.sources[h].known ==> w.policy(h, field) == Some(sig))
  }

  /** `isSignatureMatch` reads the signature off the definition that a slot holds. */
  function SignatureOf(w: World, t: Target): Option<Signature> {
    match t
    case Nothing => None
    case InModule(m, i) =>
      if IsWasm(w, m) && i < |w.sources[m].entries| && w.sources[m].entries[i].Defined? then Some(w.sources[m].entries[i].sig) else None
    case InHost(h, field) =>
      if !IsHost(w, h) then None
      else if field in w.sources[h].known then Some(w.sources[h].known[field])
      else w.policy(h, field)
  }

  lemma SignatureIsDeclared(w: World, t: Target, sig: Signature)
    ensures SignatureOf(w, t) == Some(sig) <==> Declares(w, t, sig)
  {
  }

  /** Every import asks for the signature of the definition its chain ends at. */
  ghost predicate Consistent(w: World, rank: (nat, nat) -> nat)
    requires WellFormed(w) && Acyclic(w, rank)
  {
    forall m, i :: ImportAt(w, m, i) && Chain(w, rank, m, i) != Nothing ==>
      Declares(w, Chain(w, rank, m, i), ImportOf(w, m, i).sig)
  }

  /* ---- how many host fields can be asked for ---- */

  /** An import of a host field that its module does not know. */
  predicate Unknown(w: World, e: Entry) {
    e.Imported? && IsHost(w, e.im.module_) && e.im.field !in w.sources[e.im.module_].known
  }

  function UnknownIn(w: World, entries: seq<Entry>): (r: set<(nat, nat)>)
    ensures forall k :: 0 <= k < |entries| && Unknown(w, entries[k]) ==> (entries[k].im.module_, entries[k].im.field) in r
  {
    if entries == [] then {}
    else
      var rest := UnknownIn(w, entries[1..]);
      assert forall k :: 1 <= k < |entries| ==> entries[k] == entries[1..][k - 1];
      if Unknown(w, entries[0]) then {(entries[0].im.module_, entries[0].im.field)} + rest else rest
  }

  function CountIn(w: World, entries: seq<Entry>): nat {
    if entries == [] then 0 else (if Unknown(w, entries[0]) then 1 else 0) + CountIn(w, entries[1..])
  }

  function EntriesOf(s: Source): seq<Entry> {
    if s.WasmSource? then s.entries else []
  }

  /** All the unknown host fields any module imports. */
  function UnknownFields(w: World, sources: seq<Source>): (r: set<(nat, nat)>)
    ensures forall m, k :: 0 <= m < |sources| && 0 <= k < |EntriesOf(sources[m])| && Unknown(w, EntriesOf(sources[m])[k]) ==>
      (EntriesOf(sources[m])[k].im.module_, EntriesOf(sources[m])[k].im.field) in r
  {
    if sources == [] then {}
    else
      assert forall m :: 1 <= m < |sources| ==> sources[m] == sources[1..][m - 1];
      UnknownIn(w, EntriesOf(sources[0])) + UnknownFields(w, sources[1..])
  }

  /** `performPreLink` counts every importing occurrence. */
  function PreLinkCount(w: World, sources: seq<Source>): nat {
    if sources == [] then 0 else CountIn(w, EntriesOf(sources[0])) + PreLinkCount(w, sources[1..])
  }

  lemma {:induction false} UnknownInBound(w: World, entries: seq<Entry>)
    ensures |UnknownIn(w, entries)| <= CountIn(w, entries)
    decreases |entries|
  {
    if entries != [] { UnknownInBound(w, entries[1..]); }
  }

  lemma {:induction false} UnknownBound(w: World, sources: seq<Source>)
    ensures |UnknownFields(w, sources)| <= PreLinkCount(w, sources)
    decreases |sources|
  {
    if sources != [] {
      UnknownInBound(w, EntriesOf(sources[0]));
      UnknownBound(w, sources[1..]);
      UnionBound(UnknownIn(w, EntriesOf(sources[0])), UnknownFields(w, sources[1..]));
    }
  }

  lemma UnionBound(x: set<(nat, nat)>, y: set<(nat, nat)>)
    ensures |x + y| <= |x| + |y|
  {
    assert x + y == x + (y - x);
    assert |x + (y - x)| == |x| + |y - x|;
    SubsetBound(y - x, y);
  }

  lemma {:induction false} SubsetBound(x: set<(nat, nat)>, y: set<(nat, nat)>)
    requires x <= y
    ensures |x| <= |y|
    decreases |x|
  {
    if x != {} {
      var e :| e in x;
      SubsetBound(x - {e}, y - {e});
    }
  }

  /** A request not made before leaves room for itself. */
  lemma RoomForOne(w: World, asked: set<(nat, nat)>, key: (nat, nat))
    requires asked <= UnknownFields(w, w.sources) && key in UnknownFields(w, w.sources) && key !in asked
    ensures |asked| < PreLinkCount(w, w.sources)
  {
    UnknownBound(w, w.sources);
    SubsetBound(asked + {key}, UnknownFields(w, w.sources));
  }

  /* ---- the runtime's tables ---- */

  /** A filled slot of a compiled module holds the end of its chain. */
  ghost predicate SlotsOk(w: World, rank: (nat, nat) -> nat, func: seq<seq<Target>>)
    requires WellFormed(w) && Acyclic(w, rank)
  {
    |func| == |w.sources| &&
    forall m: nat :: IsWasm(w, m) ==> |func[m]| == |w.sources[m].entries| && forall i: nat :: i < |func[m]| ==> SlotOk(w, rank, func[m][i], m, i)
  }

  ghost predicate SlotOk(w: World, rank: (nat, nat) -> nat, t: Target, m: nat, i: nat)
    requires WellFormed(w) && Acyclic(w, rank) && IsWasm(w, m) && i < |w.sources[m].entries|
  {
    if t == Nothing then w.sources[m].entries[i].Imported? else t == Chain(w, rank, m, i)
  }

  ghost predicate ExportsOk(w: World, exports: seq<map<nat, nat>>) {
    |exports| == |w.sources| && forall m: nat :: IsWasm(w, m) ==> exports[m] == w.sources[m].exports
  }

  /** The entry of field `f` of host module `h`: known or already asked for, it leads to its
      function; unknown and not asked for, it carries the invalid mark. */
  predicate HostEntryOk(w: World, func: seq<seq<Target>>, exports: seq<map<nat, nat>>, asked: set<(nat, nat)>, h: nat, f: nat)
    requires h < |func| && h < |exports| && f in exports[h]
  {
    if (h, f) in asked || (IsHost(w, h) && f in w.sources[h].known) then
      exports[h][f] < |func[h]| && func[h][exports[h][f]] == InHost(h, f)
    else exports[h][f] == INVALID_INDEX
  }

  ghost predicate HostsOk(w: World, func: seq<seq<Target>>, exports: seq<map<nat, nat>>, asked: set<(nat, nat)>) {
    |func| == |exports| == |w.sources| &&
    (forall h: nat, f: nat :: IsHost(w, h) && f in exports[h] ==> HostEntryOk(w, func, exports, asked, h, f)) &&
    (forall h: nat, f: nat :: IsHost(w, h) && (f in w.sources[h].known || (h, f) in UnknownFields(w, w.sources)) ==> f in exports[h]) &&
    (forall k :: k in asked ==> w.policy(k.0, k.1).Some?) &&
    (forall h: nat :: IsHost(w, h) ==> |func[h]| <= |w.sources[h].known| + |asked|)
  }

  /** No table outgrows its 32-bit indices. */
  ghost predicate SmallTables(w: World) {
    forall h: nat :: IsHost(w, h) ==> |w.sources[h].known| + PreLinkCount(w, w.sources) < INVALID_INDEX
  }

  function KeysOf(s: seq<(nat, nat)>): set<(nat, nat)> {
    set k | k in s
  }

  predicate NoRepeats(s: seq<(nat, nat)>) {
    forall i, j :: 0 <= i < j < |s| ==> s[i] != s[j]
  }

  ghost predicate LinkOk(w: World, rank: (nat, nat) -> nat) {
    WellFormed(w) && Acyclic(w, rank) && SmallTables(w)
  }

  /** Slots once filled stay as they are. */
  ghost predicate Grows(before: seq<seq<Target>>, after: seq<seq<Target>>) {
    |before| == |after| && forall m: nat, i: nat :: SlotGrows(before, after, m, i)
  }

  predicate SlotGrows(before: seq<seq<Target>>, after: seq<seq<Target>>, m: nat, i: nat) {
    m < |before| && i < |before[m]| ==>
      m < |after| && i < |after[m]| && (before[m][i] != Nothing ==> after[m][i] == before[m][i])
  }

  lemma ImportIsUnknown(w: World, m: nat, i: nat)
    requires ImportAt(w, m, i) && IsHost(w, ImportOf(w, m, i).module_)
    requires ImportOf(w, m, i).field !in w.sources[ImportOf(w, m, i).module_].known
    ensures (ImportOf(w, m, i).module_, ImportOf(w, m, i).field) in UnknownFields(w, w.sources)
  {
    assert Unknown(w, EntriesOf(w.sources[m])[i]);
  }

  ghost predicate TablesOk(w: World, rank: (nat, nat) -> nat, func: seq<seq<Target>>, exports: seq<map<nat, nat>>, asked: set<(nat, nat)>)
    requires WellFormed(w) && Acyclic(w, rank)
  {
    SlotsOk(w, rank, func) && ExportsOk(w, exports) && HostsOk(w, func, exports, asked)
  }

  lemma SetSlotOk(w: World, rank: (nat, nat) -> nat, func: seq<seq<Target>>, exports: seq<map<nat, nat>>, asked: set<(nat, nat)>,
      m: nat, i: nat, t: Target)
    requires WellFormed(w) && Acyclic(w, rank) && TablesOk(w, rank, func, exports, asked)
    requires IsWasm(w, m) && i < |w.sources[m].entries| && t != Nothing && t == Chain(w, rank, m, i)
    ensures |func| == |w.sources| && |func[m]| == |w.sources[m].entries|
    ensures var func2 := func[m := func[m][i := t]]; TablesOk(w, rank, func2, exports, asked) && Grows(func, func2)
  {
    hide Acyclic, WellFormed, Chain;
    var func2 := func[m := func[m][i := t]];
    forall g: nat, k: nat | IsWasm(w, g) && k < |func2[g]| ensures SlotOk(w, rank, func2[g][k], g, k) {
      assert SlotOk(w, rank, func[g][k], g, k);
      if g == m && k == i { ChainOfDefined(w, rank, m, i); }
    }
    forall h: nat, f: nat | IsHost(w, h) && f in exports[h] ensures HostEntryOk(w, func2, exports, asked, h, f) {
      assert HostEntryOk(w, func, exports, asked, h, f);
    }
    forall g: nat, k: nat ensures SlotGrows(func, func2, g, k) {
      if g == m && k == i { assert SlotOk(w, rank, func[g][k], g, k); }
    }
  }

  lemma ChainOfDefined(w: World, rank: (nat, nat) -> nat, m: nat, i: nat)
    requires WellFormed(w) && Acyclic(w, rank) && IsWasm(w, m) && i < |w.sources[m].entries|
    ensures w.sources[m].entries[i].Defined? ==> Chain(w, rank, m, i) == InModule(m, i)
  {
  }

  /** One link of a chain through a compiled module. */
  lemma ChainStep(w: World, rank: (nat, nat) -> nat, func: seq<seq<Target>>, exports: seq<map<nat, nat>>, asked: set<(nat, nat)>, m: nat, i: nat)
    requires LinkOk(w, rank) && TablesOk(w, rank, func, exports, asked) && ImportAt(w, m, i) && IsWasm(w, ImportOf(w, m, i).module_)
    ensures
      var im := ImportOf(w, m, i);
      && |func| == |exports| == |w.sources| && exports[im.module_] == w.sources[im.module_].exports
      && (im.field !in exports[im.module_] ==> Chain(w, rank, m, i) == Nothing)
      && (im.field in exports[im.module_] ==>
            var s, j := im.module_, exports[im.module_][im.field];
            && Refers(w, m, i, s, j) && rank(s, j) < rank(m, i) && j < |func[s]| && j < |w.sources[s].entries|
            && Chain(w, rank, m, i) == Chain(w, rank, s, j)
            && (func[s][j] == Nothing ==> ImportAt(w, s, j))
            && (func[s][j] != Nothing ==> func[s][j] == Chain(w, rank, s, j)))
  {
    var im := ImportOf(w, m, i);
    if im.field in exports[im.module_] {
      var s, j := im.module_, exports[im.module_][im.field];
      assert Refers(w, m, i, s, j);
      assert SlotOk(w, rank, func[s][j], s, j);
    }
  }

  /** One link of a chain into a host module. */
  lemma ChainToHost(w: World, rank: (nat, nat) -> nat, func: seq<seq<Target>>, exports: seq<map<nat, nat>>, asked: set<(nat, nat)>, m: nat, i: nat)
    requires LinkOk(w, rank) && TablesOk(w, rank, func, exports, asked) && ImportAt(w, m, i) && IsHost(w, ImportOf(w, m, i).module_)
    requires asked <= UnknownFields(w, w.sources)
    ensures
      var im := ImportOf(w, m, i);
      var h, f := im.module_, im.field;
      && |func| == |exports| == |w.sources| && f in exports[h]
      && (exports[h][f] < |func[h]| ==> func[h][exports[h][f]] == InHost(h, f) == Chain(w, rank, m, i))
      && (exports[h][f] >= |func[h]| ==>
            && exports[h][f] == INVALID_INDEX && f !in w.sources[h].known && (h, f) !in asked && (h, f) in UnknownFields(w, w.sources)
            && (Chain(w, rank, m, i) == if w.policy(h, f).Some? then InHost(h, f) else Nothing)
            && SignatureOf(w, InHost(h, f)) == w.policy(h, f))
  {
    var im := ImportOf(w, m, i);
    var h, f := im.module_, im.field;
    if f !in w.sources[h].known { ImportIsUnknown(w, m, i); }
    assert HostEntryOk(w, func, exports, asked, h, f);
    UnknownBound(w, w.sources);
    SubsetBound(asked, UnknownFields(w, w.sources));
    assert |func[h]| < INVALID_INDEX;
  }

  /** The import whose signature is compared when slot `i` of `m` is resolved while the slots are `func`:
      the last one on the way to a host module or to a slot that is filled already. Those before it are
      filled without a comparison. */
  ghost function Compared(w: World, rank: (nat, nat) -> nat, func: seq<seq<Target>>, m: nat, i: nat): (r: (nat, nat))
    requires WellFormed(w) && Acyclic(w, rank) && ImportAt(w, m, i)
    ensures ImportAt(w, r.0, r.1)
    decreases rank(m, i)
  {
    var im := ImportOf(w, m, i);
    if IsWasm(w, im.module_) && im.field in w.sources[im.module_].exports then
      var s, j := im.module_, w.sources[im.module_].exports[im.field];
      assert Refers(w, m, i, s, j);
      if ImportAt(w, s, j) && s < |func| && j < |func[s]| && func[s][j] == Nothing then Compared(w, rank, func, s, j) else (m, i)
    else (m, i)
  }

  /** What resolving a slot depends on: that its chain ends at a definition, and that the definition has
      the signature of the one import that is compared. */
  ghost predicate Resolves(w: World, rank: (nat, nat) -> nat, func: seq<seq<Target>>, m: nat, i: nat)
    requires WellFormed(w) && Acyclic(w, rank) && ImportAt(w, m, i)
  {
    var c := Compared(w, rank, func, m, i);
    Declares(w, Chain(w, rank, m, i), ImportOf(w, c.0, c.1).sig)
  }

  /** The import that is compared has the same chain end. */
  lemma {:induction false} ComparedChain(w: World, rank: (nat, nat) -> nat, func: seq<seq<Target>>, m: nat, i: nat)
    requires WellFormed(w) && Acyclic(w, rank) && ImportAt(w, m, i)
    ensures Chain(w, rank, Compared(w, rank, func, m, i).0, Compared(w, rank, func, m, i).1) == Chain(w, rank, m, i)
    decreases rank(m, i)
  {
    var im := ImportOf(w, m, i);
    if IsWasm(w, im.module_) && im.field in w.sources[im.module_].exports {
      var s, j := im.module_, w.sources[im.module_].exports[im.field];
      assert Refers(w, m, i, s, j);
      if ImportAt(w, s, j) && s < |func| && j < |func[s]| && func[s][j] == Nothing { ComparedChain(w, rank, func, s, j); }
    }
  }

  /** When all signatures agree, resolving depends on the chain alone. */
  lemma ConsistentResolves(w: World, rank: (nat, nat) -> nat, func: seq<seq<Target>>, m: nat, i: nat)
    requires WellFormed(w) && Acyclic(w, rank) && ImportAt(w, m, i) && Consistent(w, rank)
    ensures Resolves(w, rank, func, m, i) <==> Chain(w, rank, m, i) != Nothing
  {
    hide Acyclic, WellFormed, Chain, Compared;
    ComparedChain(w, rank, func, m, i);
    var c := Compared(w, rank, func, m, i);
    assert ImportAt(w, c.0, c.1);
  }

  lemma ResolvesStep(w: World, rank: (nat, nat) -> nat, func: seq<seq<Target>>, m: nat, i: nat, s: nat, j: nat)
    requires WellFormed(w) && Acyclic(w, rank) && ImportAt(w, m, i) && Refers(w, m, i, s, j)
    requires s < |func| && j < |func[s]|
    ensures func[s][j] == Nothing && ImportAt(w, s, j) ==> (Resolves(w, rank, func, m, i) <==> Resolves(w, rank, func, s, j))
    ensures func[s][j] != Nothing ==>
      (Resolves(w, rank, func, m, i) <==> Declares(w, Chain(w, rank, m, i), ImportOf(w, m, i).sig))
  {
    hide Declares;
  }

  lemma ResolvesHost(w: World, rank: (nat, nat) -> nat, func: seq<seq<Target>>, m: nat, i: nat)
    requires WellFormed(w) && Acyclic(w, rank) && ImportAt(w, m, i)
    requires IsWasm(w, ImportOf(w, m, i).module_) ==> ImportOf(w, m, i).field !in w.sources[ImportOf(w, m, i).module_].exports
    ensures Resolves(w, rank, func, m, i) <==> Declares(w, Chain(w, rank, m, i), ImportOf(w, m, i).sig)
  {
    hide Declares, Chain;
  }

  /** An import from a host module resolves exactly when the module knows the field with the import's
      signature or, not knowing it, the policy answers with that signature; then the host's function is
      the end of the chain. */
  lemma HostImportResolves(w: World, rank: (nat, nat) -> nat, func: seq<seq<Target>>, m: nat, i: nat)
    requires WellFormed(w) && Acyclic(w, rank) && ImportAt(w, m, i) && IsHost(w, ImportOf(w, m, i).module_)
    ensures
      var im := ImportOf(w, m, i);
      var known := w.sources[im.module_].known;
      && (Resolves(w, rank, func, m, i) <==>
            if im.field in known then known[im.field] == im.sig else w.policy(im.module_, im.field) == Some(im.sig))
      && (Resolves(w, rank, func, m, i) ==> Chain(w, rank, m, i) == InHost(im.module_, im.field))
  {
  }

  /** An import whose exporter's slot holds a definition already resolves exactly when that definition was
      declared with the import's signature. */
  lemma FilledImportResolves(w: World, rank: (nat, nat) -> nat, func: seq<seq<Target>>, m: nat, i: nat, s: nat, j: nat, a: nat, b: nat)
    requires WellFormed(w) && Acyclic(w, rank) && SlotsOk(w, rank, func) && Refers(w, m, i, s, j) && func[s][j] == InModule(a, b)
    requires IsWasm(w, a) && b < |w.sources[a].entries|
    ensures Resolves(w, rank, func, m, i) <==> w.sources[a].entries[b] == Defined(ImportOf(w, m, i).sig)
    ensures Chain(w, rank, m, i) == InModule(a, b)
  {
    hide Declares;
    assert SlotOk(w, rank, func[s][j], s, j);
    ResolvesStep(w, rank, func, m, i, s, j);
    assert Declares(w, InModule(a, b), ImportOf(w, m, i).sig) <==> w.sources[a].entries[b] == Defined(ImportOf(w, m, i).sig) by {
      DefinedDeclares(w, a, b, ImportOf(w, m, i).sig);
    }
  }

  lemma DefinedDeclares(w: World, a: nat, b: nat, sig: Signature)
    requires IsWasm(w, a) && b < |w.sources[a].entries|
    ensures Declares(w, InModule(a, b), sig) <==> w.sources[a].entries[b] == Defined(sig)
  {
  }

  lemma RequestOk(w: World, rank: (nat, nat) -> nat, func: seq<seq<Target>>, exports: seq<map<nat, nat>>, asked: set<(nat, nat)>, h: nat, f: nat)
    requires WellFormed(w) && Acyclic(w, rank) && TablesOk(w, rank, func, exports, asked) && IsHost(w, h) && |func| == |exports| == |w.sources|
    requires f in exports[h] && (h, f) !in asked && w.policy(h, f).Some? && f !in w.sources[h].known
    ensures
      var func2 := func[h := func[h] + [InHost(h, f)]];
      var table: map<nat, nat> := exports[h][f := |func[h]|];
      TablesOk(w, rank, func2, exports[h := table], asked + {(h, f)}) && Grows(func, func2)
  {
    hide Acyclic, WellFormed, Chain, HostsOk, UnknownFields, SlotOk;
    RequestKept(w, func, exports, asked, h, f);
    var func2 := func[h := func[h] + [InHost(h, f)]];
    forall g: nat, k: nat | IsWasm(w, g) && k < |func2[g]| ensures SlotOk(w, rank, func2[g][k], g, k) {
      assert SlotOk(w, rank, func[g][k], g, k);
    }
    forall g: nat, k: nat ensures SlotGrows(func, func2, g, k) { }
  }

  lemma RequestKept(w: World, func: seq<seq<Target>>, exports: seq<map<nat, nat>>, asked: set<(nat, nat)>, h: nat, f: nat)
    requires HostsOk(w, func, exports, asked) && IsHost(w, h) && f in exports[h] && (h, f) !in asked && w.policy(h, f).Some?
    requires f !in w.sources[h].known
    ensures
      var func2 := func[h := func[h] + [InHost(h, f)]];
      var table: map<nat, nat> := exports[h][f := |func[h]|];
      HostsOk(w, func2, exports[h := table], asked + {(h, f)})
  {
    var table: map<nat, nat> := exports[h][f := |func[h]|];
    var func2, exports2, asked2 := func[h := func[h] + [InHost(h, f)]], exports[h := table], asked + {(h, f)};
    forall g: nat, k: nat | IsHost(w, g) && k in exports2[g] ensures HostEntryOk(w, func2, exports2, asked2, g, k) {
      if g != h || k != f { assert k in exports[g] && HostEntryOk(w, func, exports, asked, g, k); }
    }
    assert |asked2| == |asked| + 1;
  }

  class Runtime {
    const w: World
    ghost const rank: (nat, nat) -> nat
    var func: seq<seq<Target>>
    var exports: seq<map<nat, nat>>
    const hostFuncs: array<(nat, nat)>  // `_funcs`, sized by `performPreLink`
    var count: nat
    ghost var requests: seq<(nat, nat)>

    /** The host fields asked for so far. */
    ghost function Asked(): set<(nat, nat)>
      requires count <= hostFuncs.Length
      reads this, hostFuncs
    {
      KeysOf(hostFuncs[..count])
    }

    ghost predicate Valid()
      reads this, hostFuncs
    {
      && LinkOk(w, rank)
      && hostFuncs.Length == PreLinkCount(w, w.sources)
      && count <= hostFuncs.Length && count == |Asked()| && Asked() <= UnknownFields(w, w.sources)
      && TablesOk(w, rank, func, exports, Asked())
    }

    /** Every request so far was answered, and no field was asked for twice. */
    ghost predicate AllAnswered()
      reads this, hostFuncs
    {
      count <= hostFuncs.Length && requests == hostFuncs[..count] && NoRepeats(requests)
    }

    /** `performPreLink`, and the tables of defined functions and exports. */
    constructor (w: World, ghost rank: (nat, nat) -> nat)
      requires LinkOk(w, rank)
      ensures Valid() && AllAnswered() && this.w == w && this.rank == rank && count == 0
      ensures forall m: nat, i: nat :: ImportAt(w, m, i) && m < |func| && i < |func[m]| ==> func[m][i] == Nothing
      ensures fresh(hostFuncs)
    {
      var n, unknown := CountUnknown(w);
      var hosts, tables := HostTables(w, unknown);
      this.w := w;
      this.rank := rank;
      this.hostFuncs := new (nat, nat)[n](_ => (0, 0));
      this.count := 0;
      this.requests := [];
      this.func := DefinedSlots(w, hosts);
      this.exports := tables;
      new;
      FirstTables(w, rank, hosts, tables);
    }

    /** `processFuncImport`: exactly when the chain ends at a definition with the signature of the import
        that is compared. */
    method ProcessFuncImport(m: nat, i: nat) returns (ok: bool)
      requires Valid() && AllAnswered() && ImportAt(w, m, i)
      modifies this, hostFuncs
      ensures NoRepeats(requests) && (ok ==> Valid() && AllAnswered())
      ensures ok <==> Resolves(w, rank, old(func), m, i)
      ensures ok ==> Chain(w, rank, m, i) != Nothing
      ensures ok ==> Grows(old(func), func) && m < |func| && i < |func[m]| && func[m][i] == Chain(w, rank, m, i)
      decreases rank(m, i)
    {
      hide TablesOk, Chain, LinkOk, Grows, SignatureOf, Declares, Resolves, Compared;
      LinkParts(w, rank);
      ResolvesChain(w, rank, func, m, i);
      var im := w.sources[m].entries[i].im;
      var s := im.module_;
      if s >= |w.sources| {
        NoModule(w, rank, m, i);
        return false;
      }
      if w.sources[s].HostSource? {
        ok := FromHost(m, i);
        return;
      }
      ChainStep(w, rank, func, exports, Asked(), m, i);
      if im.field !in exports[s] { return false; }
      var j := exports[s][im.field];
      ghost var before := func;
      ResolvesStep(w, rank, func, m, i, s, j);
      if func[s][j] == Nothing {
        ok := ProcessFuncImport(s, j);
        if !ok { return; }
      } else {
        ok := SignatureOf(w, func[s][j]) == Some(im.sig);
        SignatureIsDeclared(w, func[s][j], im.sig);
        GrowsSelf(func);
      }
      ghost var middle := func;
      SetSlot(m, i, func[s][j]);
      GrowsOn(before, middle, func);
    }

    /** One import slot gets the end of its chain. */
    method SetSlot(m: nat, i: nat, t: Target)
      requires Valid() && AllAnswered() && IsWasm(w, m) && i < |w.sources[m].entries| && t != Nothing && t == Chain(w, rank, m, i)
      modifies this`func
      ensures Valid() && AllAnswered() && Grows(old(func), func) && m < |func| && i < |func[m]| && func[m][i] == t
    {
      hide TablesOk, Chain;
      SetSlotOk(w, rank, func, exports, Asked(), m, i, t);
      func := func[m := func[m][i := t]];
    }

    /** The import names a host module. */
    method FromHost(m: nat, i: nat) returns (ok: bool)
      requires Valid() && AllAnswered() && ImportAt(w, m, i) && IsHost(w, ImportOf(w, m, i).module_)
      modifies this, hostFuncs
      ensures NoRepeats(requests) && (ok ==> Valid() && AllAnswered())
      ensures ok <==> Resolves(w, rank, old(func), m, i)
      ensures ok ==> Chain(w, rank, m, i) != Nothing
      ensures ok ==> Grows(old(func), func) && m < |func| && i < |func[m]| && func[m][i] == Chain(w, rank, m, i)
      ensures
        var im := ImportOf(w, m, i);
        var known := w.sources[im.module_].known;
        && (ok <==> if im.field in known then known[im.field] == im.sig else w.policy(im.module_, im.field) == Some(im.sig))
        && (ok ==> func[m][i] == InHost(im.module_, im.field))
    {
      HostImportResolves(w, rank, func, m, i);
      hide TablesOk, Chain, LinkOk, Grows, SignatureOf, Declares, Resolves, Compared;
      LinkParts(w, rank);
      ResolvesHost(w, rank, func, m, i);
      var im := w.sources[m].entries[i].im;
      var h, f := im.module_, im.field;
      ChainToHost(w, rank, func, exports, Asked(), m, i);
      var at := exports[h][f];
      ghost var before := func;
      ok := true;
      if at < |func[h]| {
        ok := SignatureOf(w, func[h][at]) == Some(im.sig);
        SignatureIsDeclared(w, func[h][at], im.sig);
        if ok { SetSlot(m, i, func[h][at]); }
      } else if at == INVALID_INDEX {
        ok := Request(h, f, im.sig);
        ghost var middle := func;
        if ok {
          SetSlot(m, i, InHost(h, f));
          GrowsOn(before, middle, func);
        }
      }
    }

    /** `linkExternalModules`, functions: the modules in whatever order they come. When it succeeds, every
        import chain ends at a definition and every slot holds that definition, whatever the signatures;
        and with consistent signatures it succeeds exactly when every chain ends at a definition. */
    method Link(order: seq<nat>) returns (ok: bool)
      requires Valid() && AllAnswered() && (forall m :: m in order ==> IsWasm(w, m)) && (forall m: nat :: IsWasm(w, m) ==> m in order)
      modifies this, hostFuncs
      ensures NoRepeats(requests)
      ensures ok ==> forall m: nat, i: nat :: ImportAt(w, m, i) ==> Chain(w, rank, m, i) != Nothing
      ensures Consistent(w, rank) ==> (ok <==> forall m: nat, i: nat :: ImportAt(w, m, i) ==> Chain(w, rank, m, i) != Nothing)
      ensures ok ==> Valid() && forall m: nat :: IsWasm(w, m) ==> ModuleDone(m)
    {
      hide TablesOk, Chain, LinkOk, Grows, Consistent;
      LinkParts(w, rank);
      for k := 0 to |order|
        invariant Valid() && AllAnswered()
        invariant forall x :: 0 <= x < k ==> ModuleDone(order[x])
      {
        ghost var before := func;
        ok := LinkModule(order[k]);
        if !ok { return; }
        forall x | 0 <= x < k ensures ModuleDone(order[x]) { DoneStays(before, func, order[x]); }
      }
      ok := true;
      forall m: nat | IsWasm(w, m) ensures ModuleDone(m) {
        var x :| 0 <= x < |order| && order[x] == m;
        assert ModuleDone(order[x]);
      }
      forall m: nat, i: nat | ImportAt(w, m, i) ensures Chain(w, rank, m, i) != Nothing {
        assert ModuleDone(m) && SlotDone(w, rank, func, m, i);
      }
    }

    /** Every slot of the module holds the definition at the end of its chain. */
    ghost predicate ModuleDone(m: nat)
      requires WellFormed(w) && Acyclic(w, rank) && IsWasm(w, m)
      reads this
    {
      forall i: nat :: i < |w.sources[m].entries| ==> SlotDone(w, rank, func, m, i)
    }

    lemma DoneStays(before: seq<seq<Target>>, after: seq<seq<Target>>, m: nat)
      requires WellFormed(w) && Acyclic(w, rank) && IsWasm(w, m) && Grows(before, after)
      requires forall i: nat :: i < |w.sources[m].entries| ==> SlotDone(w, rank, before, m, i)
      ensures forall i: nat :: i < |w.sources[m].entries| ==> SlotDone(w, rank, after, m, i)
    {
      forall i: nat | i < |w.sources[m].entries| ensures SlotDone(w, rank, after, m, i) { SlotStays(w, rank, before, after, m, i); }
    }

    /** Every import of one module. */
    method LinkModule(m: nat) returns (ok: bool)
      requires Valid() && AllAnswered() && IsWasm(w, m)
      modifies this, hostFuncs
      ensures NoRepeats(requests) && (ok ==> Valid() && AllAnswered() && ModuleDone(m) && Grows(old(func), func))
      ensures !ok && Consistent(w, rank) ==> exists i: nat :: ImportAt(w, m, i) && Chain(w, rank, m, i) == Nothing
    {
      hide TablesOk, Chain, LinkOk, Grows, Consistent, Resolves;
      LinkParts(w, rank);
      GrowsSelf(func);
      for i := 0 to |w.sources[m].entries|
        invariant Valid() && AllAnswered() && Grows(old(func), func)
        invariant forall x: nat :: x < i ==> SlotDone(w, rank, func, m, x)
      {
        ghost var before := func;
        if w.sources[m].entries[i].Imported? {
          if Consistent(w, rank) { ConsistentResolves(w, rank, func, m, i); }
          ok := ProcessFuncImport(m, i);
          if !ok { return; }
          GrowsOn(old(func), before, func);
          forall x: nat | x < i ensures SlotDone(w, rank, func, m, x) { SlotStays(w, rank, before, func, m, x); }
        } else {
          DefinedDone(w, rank, func, exports, Asked(), m, i);
        }
      }
      ok := true;
    }

    /** Ask the policy for an unknown host field, once, and remember the answer. The next free slot of
        `_funcs` is there: `performPreLink` counted this field. */
    method Request(h: nat, f: nat, sig: Signature) returns (ok: bool)
      requires Valid() && AllAnswered() && IsHost(w, h) && (h, f) in UnknownFields(w, w.sources)
      requires h < |func| && |func| == |exports| == |w.sources|
      requires f !in w.sources[h].known && f in exports[h] && (h, f) !in Asked()
      modifies this, hostFuncs
      ensures requests == old(requests) + [(h, f)] && NoRepeats(requests)
      ensures ok <==> w.policy(h, f) == Some(sig)
      ensures ok ==> Valid() && AllAnswered() && Grows(old(func), func)
    {
      hide TablesOk, Chain, LinkOk, Grows, UnknownFields, PreLinkCount, Acyclic, WellFormed;
      LinkParts(w, rank);
      ghost var asked := Asked();
      RoomForOne(w, asked, (h, f));
      hostFuncs[count] := (h, f);
      requests := requests + [(h, f)];
      assert hostFuncs[..count] == old(hostFuncs[..count]) && hostFuncs[..count + 1] == requests;
      if w.policy(h, f) != Some(sig) { return false; }
      RequestOk(w, rank, func, exports, asked, h, f);
      var table: map<nat, nat> := exports[h][f := |func[h]|];
      func := func[h := func[h] + [InHost(h, f)]];
      exports := exports[h := table];
      count := count + 1;
      assert Asked() == asked + {(h, f)};
      return true;
    }
  }

  ghost predicate SlotDone(w: World, rank: (nat, nat) -> nat, func: seq<seq<Target>>, m: nat, i: nat)
    requires WellFormed(w) && Acyclic(w, rank) && IsWasm(w, m) && i < |w.sources[m].entries|
  {
    m < |func| && i < |func[m]| && func[m][i] == Chain(w, rank, m, i) && func[m][i] != Nothing
  }

  lemma SlotStays(w: World, rank: (nat, nat) -> nat, before: seq<seq<Target>>, after: seq<seq<Target>>, m: nat, i: nat)
    requires WellFormed(w) && Acyclic(w, rank) && IsWasm(w, m) && i < |w.sources[m].entries|
    requires SlotDone(w, rank, before, m, i) && Grows(before, after)
    ensures SlotDone(w, rank, after, m, i)
  {
    assert SlotGrows(before, after, m, i);
  }

  lemma DefinedDone(w: World, rank: (nat, nat) -> nat, func: seq<seq<Target>>, exports: seq<map<nat, nat>>, asked: set<(nat, nat)>, m: nat, i: nat)
    requires WellFormed(w) && Acyclic(w, rank) && TablesOk(w, rank, func, exports, asked)
    requires IsWasm(w, m) && i < |w.sources[m].entries| && w.sources[m].entries[i].Defined?
    ensures SlotDone(w, rank, func, m, i)
  {
    assert SlotOk(w, rank, func[m][i], m, i);
  }

  /* ---- before linking ---- */

  /** Every importing occurrence of an unknown host field is counted; each field is marked once. */
  method CountUnknown(w: World) returns (n: nat, unknown: set<(nat, nat)>)
    ensures n == PreLinkCount(w, w.sources) && unknown == UnknownFields(w, w.sources)
  {
    n, unknown := 0, {};
    for m := 0 to |w.sources|
      invariant PreLinkCount(w, w.sources) == n + PreLinkCount(w, w.sources[m..])
      invariant UnknownFields(w, w.sources) == unknown + UnknownFields(w, w.sources[m..])
    {
      assert w.sources[m..][0] == w.sources[m] && w.sources[m..][1..] == w.sources[m + 1..];
      var k, fields := CountEntries(w, EntriesOf(w.sources[m]));
      n, unknown := n + k, unknown + fields;
    }
    assert w.sources[|w.sources|..] == [];
  }

  method CountEntries(w: World, entries: seq<Entry>) returns (n: nat, unknown: set<(nat, nat)>)
    ensures n == CountIn(w, entries) && unknown == UnknownIn(w, entries)
  {
    n, unknown := 0, {};
    for k := 0 to |entries|
      invariant CountIn(w, entries) == n + CountIn(w, entries[k..])
      invariant UnknownIn(w, entries) == unknown + UnknownIn(w, entries[k..])
    {
      assert entries[k..][0] == entries[k] && entries[k..][1..] == entries[k + 1..];
      if Unknown(w, entries[k]) {
        unknown := unknown + {(entries[k].im.module_, entries[k].im.field)};
        n := n + 1;
      }
    }
    assert entries[|entries|..] == [];
  }

  /** The tables of the host modules before any request: known functions first, unknown fields marked. */
  method HostTables(w: World, unknown: set<(nat, nat)>) returns (hosts: seq<seq<Target>>, tables: seq<map<nat, nat>>)
    requires unknown == UnknownFields(w, w.sources)
    ensures |hosts| == |tables| == |w.sources|
    ensures forall m: nat :: m < |w.sources| ==> HostTableOk(w, unknown, m, hosts[m], tables[m])
  {
    hosts, tables := [], [];
    for m := 0 to |w.sources|
      invariant |hosts| == |tables| == m
      invariant forall x: nat :: x < m ==> HostTableOk(w, unknown, x, hosts[x], tables[x])
    {
      var host, table := OneHost(w, unknown, m);
      hosts, tables := hosts + [host], tables + [table];
    }
  }

  ghost predicate HostTableOk(w: World, unknown: set<(nat, nat)>, h: nat, host: seq<Target>, table: map<nat, nat>)
    requires h < |w.sources|
  {
    if w.sources[h].WasmSource? then table == w.sources[h].exports
    else
      && (forall f: nat :: f in table <==> f in w.sources[h].known || (h, f) in unknown)
      && (forall f: nat :: f in table ==>
            if f in w.sources[h].known then table[f] < |host| && host[table[f]] == InHost(h, f) else table[f] == INVALID_INDEX)
      && |host| <= |w.sources[h].known|
  }

  method OneHost(w: World, unknown: set<(nat, nat)>, h: nat) returns (host: seq<Target>, table: map<nat, nat>)
    requires h < |w.sources|
    ensures HostTableOk(w, unknown, h, host, table)
  {
    host := [];
    if w.sources[h].WasmSource? {
      table := w.sources[h].exports;
      return;
    }
    table := map k | k in unknown && k.0 == h :: k.1 := INVALID_INDEX;
    var known := w.sources[h].known;
    var left := known.Keys;
    while left != {}
      invariant left <= known.Keys && |host| + |left| == |known|
      invariant forall f: nat :: f in table <==> (f in known && f !in left) || (h, f) in unknown
      invariant forall f: nat :: f in table ==>
        if f in known && f !in left then table[f] < |host| && host[table[f]] == InHost(h, f) else table[f] == INVALID_INDEX
      decreases |left|
    {
      var f :| f in left;
      host := host + [InHost(h, f)];
      table := table[f := |host| - 1];
      left := left - {f};
    }
  }

  /** The function tables: host tables as they are, defined functions in their slots, imports empty. */
  function DefinedSlots(w: World, hosts: seq<seq<Target>>): seq<seq<Target>>
    requires |hosts| == |w.sources|
  {
    seq(|w.sources|, m requires 0 <= m < |w.sources| => SlotsOf(w.sources[m], m, hosts[m]))
  }

  function SlotsOf(s: Source, m: nat, host: seq<Target>): seq<Target> {
    match s
    case HostSource(_) => host
    case WasmSource(entries, _) =>
      seq(|entries|, i requires 0 <= i < |entries| => if entries[i].Defined? then InModule(m, i) else Nothing)
  }

  lemma FirstTables(w: World, rank: (nat, nat) -> nat, hosts: seq<seq<Target>>, tables: seq<map<nat, nat>>)
    requires WellFormed(w) && Acyclic(w, rank) && |hosts| == |tables| == |w.sources|
    requires forall m: nat :: m < |w.sources| ==> HostTableOk(w, UnknownFields(w, w.sources), m, hosts[m], tables[m])
    ensures TablesOk(w, rank, DefinedSlots(w, hosts), tables, {})
  {
    hide Acyclic, WellFormed;
    var func := DefinedSlots(w, hosts);
    forall m: nat, i: nat | IsWasm(w, m) && i < |func[m]| ensures SlotOk(w, rank, func[m][i], m, i) {
      ChainOfDefined(w, rank, m, i);
    }
    forall h: nat, f: nat | IsHost(w, h) && f in tables[h] ensures HostEntryOk(w, func, tables, {}, h, f) {
      assert HostTableOk(w, UnknownFields(w, w.sources), h, hosts[h], tables[h]);
    }
    forall h: nat, f: nat | IsHost(w, h) && (f in w.sources[h].known || (h, f) in UnknownFields(w, w.sources)) ensures f in tables[h] {
      assert HostTableOk(w, UnknownFields(w, w.sources), h, hosts[h], tables[h]);
    }
    forall h: nat | IsHost(w, h) ensures |func[h]| <= |w.sources[h].known| {
      assert HostTableOk(w, UnknownFields(w, w.sources), h, hosts[h], tables[h]);
    }
    forall m: nat | IsWasm(w, m) ensures tables[m] == w.sources[m].exports {
      assert HostTableOk(w, UnknownFields(w, w.sources), m, hosts[m], tables[m]);
    }
  }

  lemma LinkParts(w: World, rank: (nat, nat) -> nat)
    requires LinkOk(w, rank)
    ensures WellFormed(w) && Acyclic(w, rank)
  {
  }

  lemma ResolvesChain(w: World, rank: (nat, nat) -> nat, func: seq<seq<Target>>, m: nat, i: nat)
    requires WellFormed(w) && Acyclic(w, rank) && ImportAt(w, m, i)
    ensures Resolves(w, rank, func, m, i) ==> Chain(w, rank, m, i) != Nothing
  {
  }

  lemma NoModule(w: World, rank: (nat, nat) -> nat, m: nat, i: nat)
    requires WellFormed(w) && Acyclic(w, rank) && ImportAt(w, m, i) && ImportOf(w, m, i).module_ >= |w.sources|
    ensures Chain(w, rank, m, i) == Nothing
  {
  }

  lemma GrowsSelf(func: seq<seq<Target>>)
    ensures Grows(func, func)
  {
  }

  lemma GrowsOn(x: seq<seq<Target>>, y: seq<seq<Target>>, z: seq<seq<Target>>)
    requires Grows(x, y) && Grows(y, z)
    ensures Grows(x, z)
  {
    forall m: nat, i: nat ensures SlotGrows(x, z, m, i) { assert SlotGrows(x, y, m, i) && SlotGrows(y, z, m, i); }
  }

  /* ---- without consistent signatures the order of the modules matters ---- */

  const GIVES: Signature := Signature([], [])
  const WANTS: Signature := Signature([I32], [])

  /** Module 0 defines a function; module 1 imports it as what it is and exports it again; module 2
      imports it from module 1 as something else. */
  const SKEWED: World := World(
    [WasmSource([Defined(GIVES)], map[0 := 0]),
     WasmSource([Imported(Import(0, 0, GIVES))], map[0 := 0]),
     WasmSource([Imported(Import(1, 0, WANTS))], map[])],
    (h, f) => None)

  function ByModule(m: nat, i: nat): nat {
    m
  }

  lemma SkewedOk()
    ensures LinkOk(SKEWED, ByModule) && ImportAt(SKEWED, 1, 0) && ImportAt(SKEWED, 2, 0)
    ensures Chain(SKEWED, ByModule, 1, 0) == InModule(0, 0) == Chain(SKEWED, ByModule, 2, 0)
    ensures Refers(SKEWED, 1, 0, 0, 0) && Refers(SKEWED, 2, 0, 1, 0)
    ensures !Consistent(SKEWED, ByModule)
  {
    assert Chain(SKEWED, ByModule, 0, 0) == InModule(0, 0);
    assert Refers(SKEWED, 1, 0, 0, 0) && Refers(SKEWED, 2, 0, 1, 0);
    assert Chain(SKEWED, ByModule, 1, 0) == InModule(0, 0);
    assert ImportAt(SKEWED, 2, 0) && Declares(SKEWED, Chain(SKEWED, ByModule, 2, 0), GIVES) && ImportOf(SKEWED, 2, 0).sig == WANTS;
  }

  lemma SkewedResolves(func: seq<seq<Target>>)
    requires |func| == 3 && |func[0]| == 1 && |func[1]| == 1 && func[0][0] == InModule(0, 0)
    ensures WellFormed(SKEWED) && Acyclic(SKEWED, ByModule) && ImportAt(SKEWED, 1, 0) && ImportAt(SKEWED, 2, 0)
    ensures Resolves(SKEWED, ByModule, func, 1, 0)
    ensures Resolves(SKEWED, ByModule, func, 2, 0) <==> func[1][0] == Nothing
  {
    SkewedOk();
    hide Chain;
    assert Compared(SKEWED, ByModule, func, 1, 0) == (1, 0);
    assert Compared(SKEWED, ByModule, func, 2, 0) == if func[1][0] == Nothing then (1, 0) else (2, 0);
  }

  lemma SkewedSlots(rank: (nat, nat) -> nat, func: seq<seq<Target>>, exports: seq<map<nat, nat>>, asked: set<(nat, nat)>)
    requires LinkOk(SKEWED, rank) && TablesOk(SKEWED, rank, func, exports, asked)
    ensures |func| == 3 && |func[0]| == 1 && |func[1]| == 1 && |func[2]| == 1
    ensures func[0][0] == InModule(0, 0)
  {
    assert IsWasm(SKEWED, 0) && IsWasm(SKEWED, 1) && IsWasm(SKEWED, 2);
    assert SlotOk(SKEWED, rank, func[0][0], 0, 0);
  }

  /** Module 1 first: module 2 is refused. */
  method OneThenTwo() returns (one: bool, two: bool)
    ensures one && !two
  {
    SkewedOk();
    hide LinkOk, Chain, Resolves, TablesOk, Compared, Acyclic, WellFormed, HostsOk, SignatureOf, Declares;
    var r := new Runtime(SKEWED, ByModule);
    SkewedSlots(r.rank, r.func, r.exports, r.Asked());
    SkewedResolves(r.func);
    one := r.ProcessFuncImport(1, 0);
    SkewedSlots(r.rank, r.func, r.exports, r.Asked());
    SkewedResolves(r.func);
    two := r.ProcessFuncImport(2, 0);
  }

  /** Module 2 first: both are linked, although the function does not have the signature that module 2
      asked for. */
  method TwoThenOne() returns (one: bool, two: bool)
    ensures one && two
  {
    SkewedOk();
    hide LinkOk, Chain, Resolves, TablesOk, Compared, Acyclic, WellFormed, HostsOk, SignatureOf, Declares;
    var r := new Runtime(SKEWED, ByModule);
    SkewedSlots(r.rank, r.func, r.exports, r.Asked());
    SkewedResolves(r.func);
    two := r.ProcessFuncImport(2, 0);
    SkewedSlots(r.rank, r.func, r.exports, r.Asked());
    SkewedResolves(r.func);
    one := r.ProcessFuncImport(1, 0);
  }
}
