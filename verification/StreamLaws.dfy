/** Laws of the decoder on every input: where the cursor ends, how much a tree costs, which
    abbreviation an id names, and which bits a result depends on. */
module StreamLaws {
  import opened Wrappers
  import opened Bits
  import opened Bitstream
  import opened Writer

  // ----- the cursor on whole-word bodies -----

  /** The cursor stays inside the data, so counting the bits left never goes below zero. */
  ghost predicate Inside<T>(bits: seq<bool>, r: Read<T>) {
    r != Fail(CursorPastEnd) && (r.Got? ==> r.pos <= |bits|)
  }

  lemma AlignInside(pos: nat, n: nat)
    requires pos <= n && Aligned(n)
    ensures Align32(pos) <= n
  {
  }

  lemma FieldInside(bits: seq<bool>, pos: nat, def: AbbrevDef, i: nat, acc: Fields)
    requires Aligned(|bits|) && pos <= |bits| && i < |def|
    ensures Inside(bits, ReadField(bits, pos, def, i, acc))
  {
    hide ReadVbr, ReadElements, Align32;
    if def[i].Blob? {
      var n := ReadVbr(bits, pos, 6);
      if n.Got? {
        AlignInside(n.pos, |bits|);
        var b := ReadBytes(bits, Align32(n.pos), n.value, acc.blob);
        if b.Got? { AlignInside(b.pos, |bits|); }
      }
    }
  }

  lemma {:induction false} FieldsInside(bits: seq<bool>, pos: nat, def: AbbrevDef, i: nat, acc: Fields)
    requires Aligned(|bits|) && pos <= |bits| && i <= |def|
    ensures Inside(bits, ReadFields(bits, pos, def, i, acc))
    decreases |def| - i
  {
    hide ReadField, NextOp, Align32;
    if i < |def| {
      FieldInside(bits, pos, def, i, acc);
      var r := ReadField(bits, pos, def, i, acc);
      if r.Got? { FieldsInside(bits, r.pos, def, NextOp(def, i), r.value); }
    }
  }

  lemma HeaderInside(bits: seq<bool>, pos: nat)
    requires Aligned(|bits|) && pos <= |bits|
    ensures Inside(bits, ReadHeader(bits, pos))
  {
    hide ReadVbr, Align32;
    var id := ReadVbr(bits, pos, 8);
    if id.Got? {
      var w := ReadVbr(bits, id.pos, 4);
      if w.Got? { AlignInside(w.pos, |bits|); }
    }
  }

  lemma {:induction false} BlockInside(bits: seq<bool>, pos: nat, w: nat, id: nat, st: BlockState)
    requires Aligned(|bits|) && pos <= |bits|
    ensures Inside(bits, ReadBlock(bits, pos, w, id, st))
    decreases Left(bits, pos)
  {
    hide ReadBits, ReadDef, ReadUnabbrev, ReadFields, ReadHeader, Align32;
    var a := ReadId(bits, pos, w);
    if a.Got? {
      AlignInside(a.pos, |bits|);
      if a.value == ENTER_SUBBLOCK {
        HeaderInside(bits, a.pos);
        var h := ReadHeader(bits, a.pos);
        if h.Got? {
          var inner := Start(h.value.blockId, st.info, st.skips + {h.value.lenAt});
          BlockInside(bits, h.pos, h.value.abbrevWidth, h.value.blockId, inner);
          var sub := ReadBlock(bits, h.pos, h.value.abbrevWidth, h.value.blockId, inner);
          if sub.Got? { BlockInside(bits, sub.pos, w, id, AddSubblock(st, h.value, sub.value)); }
        }
      } else if a.value != END_BLOCK {
        var k := a.value - FIRST_APPLICATION_ABBREV;
        if 0 <= k < |st.locals| { FieldsInside(bits, a.pos, st.locals[k], 0, Fields([], [])); }
        var r := ReadItem(bits, a.pos, id, a.value, st);
        if r.Got? { BlockInside(bits, r.pos, w, id, r.value); }
      }
    }
  }

  /** On a body of whole 32-bit words the top-level loop never traps on its cursor. */
  lemma {:induction false} StreamInside(bits: seq<bool>, pos: nat, st: StreamState)
    requires Aligned(|bits|) && pos <= |bits|
    ensures Inside(bits, ReadStream(bits, pos, st))
    decreases Left(bits, pos)
  {
    hide ReadBits, ReadBlock, ReadHeader, Align32;
    if |bits| - pos >= 32 {
      var a := ReadBits(bits, pos, 2);
      if a.Got? && a.value == ENTER_SUBBLOCK {
        HeaderInside(bits, a.pos);
        var h := ReadHeader(bits, a.pos);
        if h.Got? {
          var inner := Start(h.value.blockId, st.info, st.skips + {h.value.lenAt});
          BlockInside(bits, h.pos, h.value.abbrevWidth, h.value.blockId, inner);
          var sub := ReadBlock(bits, h.pos, h.value.abbrevWidth, h.value.blockId, inner);
          if sub.Got? { StreamInside(bits, sub.pos, AddBlock(st, h.value, sub.value)); }
        }
      }
    }
  }

  // ----- size -----

  /** 45 bits for each block of the tree, 3 for each record. */
  function Cost(b: Block): nat
    decreases b, 0
  {
    45 + 3 * |b.records| + Costs(b.subblocks)
  }

  function Costs(bs: seq<Block>): nat
    decreases bs, 1
  {
    if bs == [] then 0 else Cost(bs[0]) + Costs(bs[1..])
  }

  lemma {:induction false} CostsSnoc(bs: seq<Block>, b: Block)
    ensures Costs(bs + [b]) == Costs(bs) + Cost(b)
  {
    if bs == [] {
      assert (bs + [b])[1..] == [];
    } else {
      assert (bs + [b])[1..] == bs[1..] + [b];
      CostsSnoc(bs[1..], b);
    }
  }

  function StateCost(st: BlockState): nat { 3 * |st.records| + Costs(st.subblocks) }

  /** An abbreviation id that needs more than n bits proves the width is above n. */
  lemma IdWidth(bits: seq<bool>, pos: nat, w: nat)
    requires ReadId(bits, pos, w).Got?
    ensures ReadId(bits, pos, w).value >= 1 ==> w >= 1
    ensures ReadId(bits, pos, w).value >= 2 ==> w >= 2
    ensures ReadId(bits, pos, w).value >= 4 ==> w >= 3
  {
    assert Pow2(1) == 2 && Pow2(2) == 4;
  }

  /** The items a block gained cost no more than the bits read for them. */
  lemma {:induction false} BlockCost(bits: seq<bool>, pos: nat, w: nat, id: nat, st: BlockState)
    requires ReadBlock(bits, pos, w, id, st).Got?
    ensures var r := ReadBlock(bits, pos, w, id, st); StateCost(st) + (r.pos - pos) >= StateCost(r.value)
    decreases Left(bits, pos)
  {
    hide ReadId, ReadDef, ReadUnabbrev, ReadAbbreviated, ReadHeader, Costs, Align32;
    var a := ReadId(bits, pos, w);
    IdWidth(bits, pos, w);
    if a.value == ENTER_SUBBLOCK {
      var h := ReadHeader(bits, a.pos);
      var inner := Start(h.value.blockId, st.info, st.skips + {h.value.lenAt});
      BlockCost(bits, h.pos, h.value.abbrevWidth, h.value.blockId, inner);
      var sub := ReadBlock(bits, h.pos, h.value.abbrevWidth, h.value.blockId, inner);
      BlockCost(bits, sub.pos, w, id, AddSubblock(st, h.value, sub.value));
      CostsSnoc(st.subblocks, BlockOf(h.value.blockId, h.value.abbrevWidth, sub.value));
      assert Costs([]) == 0 by { NoCost(); }
    } else if a.value != END_BLOCK {
      var r := ReadItem(bits, a.pos, id, a.value, st);
      BlockCost(bits, r.pos, w, id, r.value);
    }
  }

  lemma NoCost()
    ensures Costs([]) == 0
  {
  }

  /** The whole tree: 45 bits for each block and 3 for each record at least, so a body of n bytes
      cannot make the reader build more than 8n / 3 nodes. */
  lemma {:induction false} StreamCost(bits: seq<bool>, pos: nat, st: StreamState)
    requires ReadStream(bits, pos, st).Got?
    ensures var r := ReadStream(bits, pos, st); Costs(st.blocks) + (r.pos - pos) >= Costs(r.value.blocks)
    decreases Left(bits, pos)
  {
    hide ReadBits, ReadBlock, ReadHeader, Costs, Align32;
    if |bits| - pos >= 32 {
      var a := ReadBits(bits, pos, 2);
      if a.value == ENTER_SUBBLOCK {
        var h := ReadHeader(bits, a.pos);
        var inner := Start(h.value.blockId, st.info, st.skips + {h.value.lenAt});
        BlockCost(bits, h.pos, h.value.abbrevWidth, h.value.blockId, inner);
        NoCost();
        var sub := ReadBlock(bits, h.pos, h.value.abbrevWidth, h.value.blockId, inner);
        StreamCost(bits, sub.pos, AddBlock(st, h.value, sub.value));
        CostsSnoc(st.blocks, BlockOf(h.value.blockId, h.value.abbrevWidth, sub.value));
      }
    }
  }

  // ----- abbreviations in scope -----

  ghost predicate Grows(a: BlockInfo, b: BlockInfo) {
    forall k <- a :: k in b && a[k] <= b[k]
  }

  /** BLOCKINFO's list for a block id only ever grows at its end. */
  lemma {:induction false} BlockInfoGrows(bits: seq<bool>, pos: nat, w: nat, id: nat, st: BlockState)
    requires ReadBlock(bits, pos, w, id, st).Got?
    ensures Grows(st.info, ReadBlock(bits, pos, w, id, st).value.info)
    decreases Left(bits, pos)
  {
    hide ReadId, ReadDef, ReadUnabbrev, ReadAbbreviated, ReadHeader, Align32;
    var a := ReadId(bits, pos, w);
    if a.value == ENTER_SUBBLOCK {
      var h := ReadHeader(bits, a.pos);
      var inner := Start(h.value.blockId, st.info, st.skips + {h.value.lenAt});
      BlockInfoGrows(bits, h.pos, h.value.abbrevWidth, h.value.blockId, inner);
      var sub := ReadBlock(bits, h.pos, h.value.abbrevWidth, h.value.blockId, inner);
      BlockInfoGrows(bits, sub.pos, w, id, AddSubblock(st, h.value, sub.value));
    } else if a.value != END_BLOCK {
      var r := ReadItem(bits, a.pos, id, a.value, st);
      BlockInfoGrows(bits, r.pos, w, id, r.value);
    }
  }

  /** The same across the blocks of a whole parse. */
  lemma {:induction false} StreamInfoGrows(bits: seq<bool>, pos: nat, st: StreamState)
    requires ReadStream(bits, pos, st).Got?
    ensures Grows(st.info, ReadStream(bits, pos, st).value.info)
    decreases Left(bits, pos)
  {
    hide ReadBits, ReadBlock, ReadHeader, Align32;
    if |bits| - pos >= 32 {
      var a := ReadBits(bits, pos, 2);
      if a.value == ENTER_SUBBLOCK {
        var h := ReadHeader(bits, a.pos);
        var inner := Start(h.value.blockId, st.info, st.skips + {h.value.lenAt});
        BlockInfoGrows(bits, h.pos, h.value.abbrevWidth, h.value.blockId, inner);
        var sub := ReadBlock(bits, h.pos, h.value.abbrevWidth, h.value.blockId, inner);
        StreamInfoGrows(bits, sub.pos, AddBlock(st, h.value, sub.value));
      }
    }
  }

  /** The definitions among the events, in order. */
  function Defined(log: seq<Event>): seq<AbbrevDef> {
    if log == [] then []
    else Defined(log[..|log| - 1]) + (if log[|log| - 1].Defines? then [log[|log| - 1].def] else [])
  }

  /** The abbreviations in scope: in BLOCKINFO itself definitions are for other blocks. */
  function ScopeOf(id: nat, entry: seq<AbbrevDef>, log: seq<Event>): seq<AbbrevDef> {
    if id == BLOCKINFO_BLOCK_ID then entry else entry + Defined(log)
  }

  /** Every event is what stands at its place, a use with the entry of its index in scope. */
  ghost predicate Faithful(bits: seq<bool>, id: nat, entry: seq<AbbrevDef>, log: seq<Event>) {
    forall i | 0 <= i < |log| :: EventOk(bits, ScopeOf(id, entry, log[..i]), log[i])
  }

  ghost predicate EventOk(bits: seq<bool>, scope: seq<AbbrevDef>, e: Event) {
    match e
    case Defines(def, at) => ReadDef(bits, at).Got? && ReadDef(bits, at).value == def
    case Uses(k, def, at) =>
      k < |scope| && def == scope[k] && ReadAbbreviated(bits, at, FIRST_APPLICATION_ABBREV + k, scope[k]).Got?
    case Plain(rec, at) => ReadUnabbrev(bits, at).Got? && ReadUnabbrev(bits, at).value == rec
    case Nested(_) => true
  }

  /** The records read by the events, in order. */
  function LoggedRecords(bits: seq<bool>, log: seq<Event>): seq<Record> {
    if log == [] then [] else LoggedRecords(bits, log[..|log| - 1]) + LoggedRecord(bits, log[|log| - 1])
  }

  function LoggedRecord(bits: seq<bool>, e: Event): seq<Record> {
    match e
    case Uses(k, def, at) => Just(ReadAbbreviated(bits, at, FIRST_APPLICATION_ABBREV + k, def))
    case Plain(_, at) => Just(ReadUnabbrev(bits, at))
    case _ => []
  }

  function Just(r: Read<Record>): seq<Record> { if r.Got? then [r.value] else [] }

  /** The block id that the last SETBID record named, if it named one. */
  function Target(log: seq<Event>): Option<nat> {
    if log == [] then None
    else
      match log[|log| - 1]
      case Plain(rec, _) =>
        if rec.code != BLOCKINFO_CODE_SETBID then Target(log[..|log| - 1])
        else if rec.operands == [] then None
        else Some(rec.operands[0])
      case _ => Target(log[..|log| - 1])
  }

  function Registering(id: nat, before: seq<Event>, def: AbbrevDef, at: nat): seq<Registration> {
    match Target(before)
    case Some(target) => if id == BLOCKINFO_BLOCK_ID then [Registration(target, def, at)] else []
    case None => []
  }

  /** What a block registers: in BLOCKINFO each definition under the SETBID target before it, and
      everywhere what its nested blocks register. */
  function RegistrationsOf(id: nat, log: seq<Event>): seq<Registration> {
    if log == [] then []
    else
      var before := log[..|log| - 1];
      RegistrationsOf(id, before) +
      match log[|log| - 1] {
        case Defines(def, at) => Registering(id, before, def, at)
        case Nested(registrations) => registrations
        case _ => []
      }
  }

  /** The definitions registered for a block id, in order. */
  function DefsFor(registrations: seq<Registration>, id: nat): seq<AbbrevDef> {
    if registrations == [] then []
    else
      var last := registrations[|registrations| - 1];
      DefsFor(registrations[..|registrations| - 1], id) + if last.target == id then [last.def] else []
  }

  /** Every list has grown by exactly the definitions registered for its block id. */
  ghost predicate Lists(before: BlockInfo, registrations: seq<Registration>, after: BlockInfo) {
    forall id :: ListOf(after, id) == ListOf(before, id) + DefsFor(registrations, id)
  }

  /** What every block state keeps about what the block has met, when `info` held at its start. */
  ghost predicate ScopeInv(bits: seq<bool>, info: BlockInfo, id: nat, st: BlockState) {
    var entry := ListOf(info, id);
    && st.locals == ScopeOf(id, entry, st.log)
    && Faithful(bits, id, entry, st.log)
    && st.records == LoggedRecords(bits, st.log)
    && st.setbid == (if id == BLOCKINFO_BLOCK_ID then Target(st.log) else None)
    && st.registrations == RegistrationsOf(id, st.log)
    && Lists(info, st.registrations, st.info)
  }

  lemma FaithfulSnoc(bits: seq<bool>, id: nat, entry: seq<AbbrevDef>, log: seq<Event>, e: Event)
    requires Faithful(bits, id, entry, log) && EventOk(bits, ScopeOf(id, entry, log), e)
    ensures Faithful(bits, id, entry, log + [e])
  {
    hide EventOk, ScopeOf;
    var log' := log + [e];
    forall i | 0 <= i < |log'| ensures EventOk(bits, ScopeOf(id, entry, log'[..i]), log'[i]) {
      assert log'[..i] == if i < |log| then log[..i] else log;
    }
  }

  /** What one more event adds. */
  lemma LogSnoc(bits: seq<bool>, id: nat, log: seq<Event>, e: Event)
    ensures Defined(log + [e]) == Defined(log) + (if e.Defines? then [e.def] else [])
    ensures LoggedRecords(bits, log + [e]) == LoggedRecords(bits, log) + LoggedRecord(bits, e)
    ensures !e.Plain? ==> Target(log + [e]) == Target(log)
    ensures e.Plain? && e.rec.code != BLOCKINFO_CODE_SETBID ==> Target(log + [e]) == Target(log)
    ensures e.Plain? && e.rec.code == BLOCKINFO_CODE_SETBID ==>
      Target(log + [e]) == if e.rec.operands == [] then None else Some(e.rec.operands[0])
    ensures e.Nested? ==> RegistrationsOf(id, log + [e]) == RegistrationsOf(id, log) + e.registrations
    ensures e.Uses? || e.Plain? ==> RegistrationsOf(id, log + [e]) == RegistrationsOf(id, log)
    ensures e.Defines? ==>
      RegistrationsOf(id, log + [e]) == RegistrationsOf(id, log) + Registering(id, log, e.def, e.at)
  {
    hide LoggedRecord;
    assert (log + [e])[..|log|] == log;
    assert RegistrationsOf(id, log) + [] == RegistrationsOf(id, log);
  }

  /** Registering appends to one list and leaves the others alone. */
  lemma RegisterAppends(info: BlockInfo, target: nat, def: AbbrevDef, id: nat)
    ensures ListOf(Register(info, target, def), id) == ListOf(info, id) + if id == target then [def] else []
  {
  }

  lemma ListsSnoc(before: BlockInfo, registrations: seq<Registration>, info: BlockInfo, r: Registration)
    requires Lists(before, registrations, info)
    ensures Lists(before, registrations + [r], Register(info, r.target, r.def))
  {
    hide ListOf, Register;
    var longer := registrations + [r];
    assert longer[..|registrations|] == registrations;
    forall id ensures ListOf(Register(info, r.target, r.def), id) == ListOf(before, id) + DefsFor(longer, id) {
      RegisterAppends(info, r.target, r.def, id);
      ConcatAssociative(ListOf(before, id), DefsFor(registrations, id), if id == r.target then [r.def] else []);
    }
  }

  lemma {:induction false} DefsForConcat(a: seq<Registration>, b: seq<Registration>, id: nat)
    ensures DefsFor(a + b, id) == DefsFor(a, id) + DefsFor(b, id)
    decreases |b|
  {
    if b == [] {
      assert a + b == a;
    } else {
      var last := b[|b| - 1];
      assert (a + b)[..|a + b| - 1] == a + b[..|b| - 1];
      DefsForConcat(a, b[..|b| - 1], id);
      ConcatAssociative(DefsFor(a, id), DefsFor(b[..|b| - 1], id), if last.target == id then [last.def] else []);
    }
  }

  lemma ListsConcat(a: BlockInfo, r: seq<Registration>, b: BlockInfo, q: seq<Registration>, c: BlockInfo)
    requires Lists(a, r, b) && Lists(b, q, c)
    ensures Lists(a, r + q, c)
  {
    hide ListOf;
    forall id ensures ListOf(c, id) == ListOf(a, id) + DefsFor(r + q, id) {
      DefsForConcat(r, q, id);
      ConcatAssociative(ListOf(a, id), DefsFor(r, id), DefsFor(q, id));
    }
  }

  lemma DefScope(bits: seq<bool>, info: BlockInfo, id: nat, st: BlockState, at: nat)
    requires ScopeInv(bits, info, id, st) && ReadDef(bits, at).Got?
    ensures ScopeInv(bits, info, id, AddDef(id, st, ReadDef(bits, at).value, at))
  {
    hide Defined, LoggedRecords, Target, RegistrationsOf, Faithful, ReadDef, Lists, ListOf, Register;
    var def := ReadDef(bits, at).value;
    var e := Defines(def, at);
    LogSnoc(bits, id, st.log, e);
    FaithfulSnoc(bits, id, ListOf(info, id), st.log, e);
    ConcatAssociative(ListOf(info, id), Defined(st.log), [def]);
    assert LoggedRecords(bits, st.log) + [] == LoggedRecords(bits, st.log);
    if id == BLOCKINFO_BLOCK_ID && st.setbid.Some? {
      ListsSnoc(info, st.registrations, st.info, Registration(st.setbid.value, def, at));
    } else {
      assert st.registrations + [] == st.registrations;
    }
  }

  lemma AbbreviatedScope(bits: seq<bool>, info: BlockInfo, id: nat, st: BlockState, k: nat, at: nat)
    requires ScopeInv(bits, info, id, st) && k < |st.locals|
    requires ReadAbbreviated(bits, at, FIRST_APPLICATION_ABBREV + k, st.locals[k]).Got?
    ensures var a := FIRST_APPLICATION_ABBREV + k; var rec := ReadAbbreviated(bits, at, a, st.locals[k]).value;
      ScopeInv(bits, info, id, AddAbbreviated(st, a, st.locals[k], rec, at))
  {
    hide Defined, LoggedRecords, Target, RegistrationsOf, Faithful, ReadAbbreviated, Lists, ListOf;
    var e := Uses(k, st.locals[k], at);
    LogSnoc(bits, id, st.log, e);
    FaithfulSnoc(bits, id, ListOf(info, id), st.log, e);
    assert Defined(st.log) + [] == Defined(st.log);
  }

  lemma UnabbrevScope(bits: seq<bool>, info: BlockInfo, id: nat, st: BlockState, at: nat)
    requires ScopeInv(bits, info, id, st) && ReadUnabbrev(bits, at).Got?
    ensures ScopeInv(bits, info, id, AddUnabbrev(id, st, ReadUnabbrev(bits, at).value, at))
  {
    hide Defined, LoggedRecords, Target, RegistrationsOf, Faithful, ReadUnabbrev, Lists, ListOf;
    var e := Plain(ReadUnabbrev(bits, at).value, at);
    LogSnoc(bits, id, st.log, e);
    FaithfulSnoc(bits, id, ListOf(info, id), st.log, e);
    assert Defined(st.log) + [] == Defined(st.log);
  }

  lemma SubblockScope(bits: seq<bool>, info: BlockInfo, id: nat, st: BlockState, h: Header, sub: BlockState)
    requires ScopeInv(bits, info, id, st) && Lists(st.info, sub.registrations, sub.info)
    ensures ScopeInv(bits, info, id, AddSubblock(st, h, sub))
  {
    hide Defined, LoggedRecords, Target, RegistrationsOf, Faithful, Lists, ListOf;
    var e := Nested(sub.registrations);
    LogSnoc(bits, id, st.log, e);
    FaithfulSnoc(bits, id, ListOf(info, id), st.log, e);
    ListsConcat(info, st.registrations, st.info, sub.registrations, sub.info);
    assert Defined(st.log) + [] == Defined(st.log);
    assert LoggedRecords(bits, st.log) + [] == LoggedRecords(bits, st.log);
  }

  lemma ItemScope(bits: seq<bool>, pos: nat, info: BlockInfo, id: nat, a: nat, st: BlockState)
    requires a >= DEFINE_ABBREV && ScopeInv(bits, info, id, st) && ReadItem(bits, pos, id, a, st).Got?
    ensures ScopeInv(bits, info, id, ReadItem(bits, pos, id, a, st).value)
  {
    hide ReadDef, ReadUnabbrev, ReadAbbreviated, AddDef, AddUnabbrev, AddAbbreviated, ScopeInv;
    if a == DEFINE_ABBREV {
      DefScope(bits, info, id, st, pos);
    } else if a == UNABBREV_RECORD {
      UnabbrevScope(bits, info, id, st, pos);
    } else {
      AbbreviatedScope(bits, info, id, st, a - FIRST_APPLICATION_ABBREV, pos);
    }
  }

  lemma StartScope(bits: seq<bool>, info: BlockInfo, id: nat, skips: set<nat>)
    ensures ScopeInv(bits, info, id, Start(id, info, skips))
  {
    assert ListOf(info, id) + [] == ListOf(info, id);
    forall k ensures ListOf(info, k) == ListOf(info, k) + DefsFor([], k) {
    }
  }

  lemma {:induction false} BlockScope(bits: seq<bool>, pos: nat, w: nat, info: BlockInfo, id: nat, st: BlockState)
    requires ScopeInv(bits, info, id, st) && ReadBlock(bits, pos, w, id, st).Got?
    ensures ScopeInv(bits, info, id, ReadBlock(bits, pos, w, id, st).value)
    decreases Left(bits, pos)
  {
    hide ReadId, ReadItem, ReadHeader, Align32, Defined, LoggedRecords, Target, RegistrationsOf, Faithful,
      Lists, ListOf, AddSubblock;
    var a := ReadId(bits, pos, w);
    if a.value == ENTER_SUBBLOCK {
      var h := ReadHeader(bits, a.pos);
      var inner := Start(h.value.blockId, st.info, st.skips + {h.value.lenAt});
      StartScope(bits, st.info, h.value.blockId, st.skips + {h.value.lenAt});
      BlockScope(bits, h.pos, h.value.abbrevWidth, st.info, h.value.blockId, inner);
      var sub := ReadBlock(bits, h.pos, h.value.abbrevWidth, h.value.blockId, inner);
      SubblockScope(bits, info, id, st, h.value, sub.value);
      BlockScope(bits, sub.pos, w, info, id, AddSubblock(st, h.value, sub.value));
    } else if a.value != END_BLOCK {
      ItemScope(bits, a.pos, info, id, a.value, st);
      var r := ReadItem(bits, a.pos, id, a.value, st);
      BlockScope(bits, r.pos, w, info, id, r.value);
    }
  }

  /** In any block, every record is, in order, what stands at the recorded places: without abbreviation, or
      with abbreviation id 4+k and entry k of the list BLOCKINFO had for the block's id on entry, followed
      by the definitions read in the block before (BLOCKINFO's own definitions are not in its scope). */
  lemma AbbreviationScope(bits: seq<bool>, pos: nat, w: nat, id: nat, info: BlockInfo, skips: set<nat>)
    requires ReadBlock(bits, pos, w, id, Start(id, info, skips)).Got?
    ensures var st, entry := ReadBlock(bits, pos, w, id, Start(id, info, skips)).value, ListOf(info, id);
      Faithful(bits, id, entry, st.log) && st.records == LoggedRecords(bits, st.log)
  {
    StartScope(bits, info, id, skips);
    BlockScope(bits, pos, w, info, id, Start(id, info, skips));
  }

  /** Through any block each BLOCKINFO list grows by exactly the definitions registered for its block id:
      those a BLOCKINFO block, here or nested, read while its last SETBID record named that id. */
  lemma RegistrationScope(bits: seq<bool>, pos: nat, w: nat, id: nat, info: BlockInfo, skips: set<nat>)
    requires ReadBlock(bits, pos, w, id, Start(id, info, skips)).Got?
    ensures var st, entry := ReadBlock(bits, pos, w, id, Start(id, info, skips)).value, ListOf(info, id);
      && Faithful(bits, id, entry, st.log)
      && st.registrations == RegistrationsOf(id, st.log)
      && Lists(info, st.registrations, st.info)
  {
    StartScope(bits, info, id, skips);
    BlockScope(bits, pos, w, info, id, Start(id, info, skips));
  }

  /** The same across the blocks of a whole parse. */
  lemma {:induction false} StreamRegistrations(bits: seq<bool>, pos: nat, info: BlockInfo, st: StreamState)
    requires ReadStream(bits, pos, st).Got? && Lists(info, st.registrations, st.info)
    ensures var r := ReadStream(bits, pos, st).value; Lists(info, r.registrations, r.info)
    decreases Left(bits, pos)
  {
    hide ReadBits, ReadBlock, ReadHeader, Align32, Lists;
    if |bits| - pos >= 32 {
      var a := ReadBits(bits, pos, 2);
      if a.value == ENTER_SUBBLOCK {
        var h := ReadHeader(bits, a.pos);
        var inner := Start(h.value.blockId, st.info, st.skips + {h.value.lenAt});
        RegistrationScope(bits, h.pos, h.value.abbrevWidth, h.value.blockId, st.info, st.skips + {h.value.lenAt});
        var sub := ReadBlock(bits, h.pos, h.value.abbrevWidth, h.value.blockId, inner);
        ListsConcat(info, st.registrations, st.info, sub.value.registrations, sub.value.info);
        StreamRegistrations(bits, sub.pos, info, AddBlock(st, h.value, sub.value));
      }
    }
  }
}
