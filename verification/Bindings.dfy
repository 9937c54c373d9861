/** The binding allocator of src/shader_jit/transforms.rs: a recursive walk over the parsed tree
    that numbers the argument-buffer names it meets. */
module Bindings {
  import opened Bits
  import opened Bitstream
  import opened Utf8
  import opened AirFile

  datatype BindingModifier = BindingModifier(set_: nat, binding: nat, isBindless: bool, isNonUniform: bool)

  // ----- names -----

  /** The record carries an argument-buffer name; a name is kept as its UTF-8 bytes. */
  predicate Named(rec: Record) {
    && rec.blob != [] && ValidUtf8(rec.blob)
    && (Contains(rec.blob, "argument_buffer") || Contains(rec.blob, "buffer_index"))
  }

  /** Read without the search and the table: the blob is text and one of the two words stands in it. */
  lemma NamedExactly(rec: Record)
    ensures Named(rec) <==>
      rec.blob != [] && Text(rec.blob) && (Occurs(rec.blob, "argument_buffer") || Occurs(rec.blob, "buffer_index"))
  {
    ValidIsText(rec.blob);
    ContainsIsOccurs(rec.blob, "argument_buffer");
    ContainsIsOccurs(rec.blob, "buffer_index");
  }

  // ----- the walk as a fold over records in preorder -----

  datatype Walk = Walk(counter: nat, bindings: map<seq<byte>, BindingModifier>, barrierFix: bool)

  function Visit(acc: Walk, rec: Record, hasAb: bool): Walk {
    var acc' := if rec.code == 5 || rec.code == 6 then acc.(barrierFix := true) else acc;
    if hasAb && Named(rec) then
      acc'.(counter := (acc.counter + 1) % U32,
            bindings := acc.bindings[rec.blob := BindingModifier(0, acc.counter, true, true)])
    else acc'
  }

  function Fold(acc: Walk, records: seq<Record>, hasAb: bool): Walk
    decreases |records|
  {
    if records == [] then acc else Fold(Visit(acc, records[0], hasAb), records[1..], hasAb)
  }

  /** A block's own records, then those of its subblocks. */
  function Preorder(b: Block): seq<Record>
    decreases b, 0
  {
    b.records + PreorderAll(b.subblocks)
  }

  function PreorderAll(bs: seq<Block>): seq<Record>
    decreases bs, 1
  {
    if bs == [] then [] else Preorder(bs[0]) + PreorderAll(bs[1..])
  }

  /** What a tree adds: its own records, what its subblocks add, and what the blocks after it add. */
  lemma PreorderTree(id: nat, w: nat, records: seq<Record>, subblocks: seq<Block>, rest: seq<Block>)
    ensures PreorderAll([]) == []
    ensures PreorderAll([Block(id, w, records, subblocks)] + rest)
         == records + (PreorderAll(subblocks) + PreorderAll(rest))
  {
    var b := Block(id, w, records, subblocks);
    assert ([b] + rest)[1..] == rest;
    assert PreorderAll([b] + rest) == Preorder(b) + PreorderAll(rest);
    ConcatAssociative(records, PreorderAll(subblocks), PreorderAll(rest));
  }

  lemma {:induction false} FoldConcat(acc: Walk, a: seq<Record>, b: seq<Record>, hasAb: bool)
    ensures Fold(acc, a + b, hasAb) == Fold(Fold(acc, a, hasAb), b, hasAb)
    decreases |a|
  {
    hide Visit;
    if a == [] {
      assert a + b == b;
    } else {
      assert (a + b)[1..] == a[1..] + b;
      FoldConcat(Visit(acc, a[0], hasAb), a[1..], b, hasAb);
    }
  }

  // ----- the transformer -----

  class PipelineTransformResult {
    var bindingMap: map<seq<byte>, BindingModifier>
    var requiresControlBarrierFix: bool

    constructor ()
      ensures bindingMap == map[] && !requiresControlBarrierFix
    {
      bindingMap := map[];
      requiresControlBarrierFix := false;
    }
  }

  class AirTransformer {
    var bindingCounter: nat

    constructor ()
      ensures bindingCounter == 0
    {
      bindingCounter := 0;
    }

    ghost function State(result: PipelineTransformResult): Walk
      reads this, result
    {
      Walk(bindingCounter, result.bindingMap, result.requiresControlBarrierFix)
    }

    method TransformModule(air: AirModule) returns (result: PipelineTransformResult)
      modifies this
      ensures fresh(result)
      ensures State(result)
           == Fold(Walk(old(bindingCounter), map[], false), PreorderAll(air.blocks),
             ArgumentBufferUsage in air.features)
    {
      result := new PipelineTransformResult();
      var hasArgumentBuffers := false;
      for i := 0 to |air.features|
        invariant hasArgumentBuffers == (ArgumentBufferUsage in air.features[..i])
      {
        if air.features[i] == ArgumentBufferUsage {
          hasArgumentBuffers := true;
        }
      }
      assert air.features[..|air.features|] == air.features;
      ProcessAll(air.blocks, result, hasArgumentBuffers);
    }

    /** The loop over a list of blocks, in `transform_module` and in `process_block_transforms`. */
    method ProcessAll(blocks: seq<Block>, result: PipelineTransformResult, hasAb: bool)
      modifies this, result
      ensures State(result) == Fold(old(State(result)), PreorderAll(blocks), hasAb)
      decreases blocks, 1
    {
      hide Visit, Preorder;
      for i := 0 to |blocks|
        invariant Fold(State(result), PreorderAll(blocks[i..]), hasAb)
             == Fold(old(State(result)), PreorderAll(blocks), hasAb)
      {
        assert blocks[i..][1..] == blocks[i + 1..];
        FoldConcat(State(result), Preorder(blocks[i]), PreorderAll(blocks[i + 1..]), hasAb);
        ProcessBlockTransforms(blocks[i], result, hasAb);
      }
    }

    method ProcessBlockTransforms(block: Block, result: PipelineTransformResult, hasAb: bool)
      modifies this, result
      ensures State(result) == Fold(old(State(result)), Preorder(block), hasAb)
      decreases block, 0
    {
      hide Visit;
      FoldConcat(State(result), block.records, PreorderAll(block.subblocks), hasAb);
      for i := 0 to |block.records|
        invariant Fold(State(result), block.records[i..], hasAb) == Fold(old(State(result)), block.records, hasAb)
      {
        assert block.records[i..][1..] == block.records[i + 1..];
        AnalyzeRecordMetadata(block.records[i], result, hasAb);
      }
      ProcessAll(block.subblocks, result, hasAb);
    }

    method AnalyzeRecordMetadata(rec: Record, result: PipelineTransformResult, hasAb: bool)
      modifies this, result
      ensures State(result) == Visit(old(State(result)), rec, hasAb)
    {
      if rec.code == 5 || rec.code == 6 {
        result.requiresControlBarrierFix := true;
      }
      if hasAb && rec.blob != [] {
        if ValidUtf8(rec.blob) {
          var potentialName := rec.blob;
          if Contains(potentialName, "argument_buffer") || Contains(potentialName, "buffer_index") {
            var currentBinding := bindingCounter;
            bindingCounter := (bindingCounter + 1) % U32;
            result.bindingMap := result.bindingMap[potentialName := BindingModifier(0, currentBinding, true, true)];
          }
        }
      }
    }
  }

  // ----- what the walk allocates -----

  /** The names met, in order. */
  function Names(records: seq<Record>): seq<seq<byte>> {
    if records == [] then []
    else (if Named(records[0]) then [records[0].blob] else []) + Names(records[1..])
  }

  /** k is the last place where name stands in names. */
  ghost predicate LastAt(names: seq<seq<byte>>, name: seq<byte>, k: nat) {
    k < |names| && names[k] == name && forall j | k < j < |names| :: names[j] != name
  }

  /** The map after a walk from counter c with an empty map: every name at the binding of its last occurrence. */
  ghost predicate Allocated(c: nat, names: seq<seq<byte>>, bindings: map<seq<byte>, BindingModifier>) {
    && (forall name :: name in bindings <==> name in names)
    && (forall name <- bindings ::
          exists k :: LastAt(names, name, k) && bindings[name] == BindingModifier(0, c + k, true, true))
  }

  /** One more name takes the next number and replaces its earlier binding. */
  lemma AllocatedSnoc(c: nat, names: seq<seq<byte>>, bindings: map<seq<byte>, BindingModifier>, name: seq<byte>)
    requires Allocated(c, names, bindings)
    ensures Allocated(c, names + [name], bindings[name := BindingModifier(0, c + |names|, true, true)])
  {
    var names', bindings' := names + [name], bindings[name := BindingModifier(0, c + |names|, true, true)];
    forall n <- bindings'
      ensures exists k :: LastAt(names', n, k) && bindings'[n] == BindingModifier(0, c + k, true, true)
    {
      if n == name {
        assert LastAt(names', n, |names|);
      } else {
        var k :| LastAt(names, n, k) && bindings[n] == BindingModifier(0, c + k, true, true);
        assert LastAt(names', n, k);
      }
    }
  }

  /** Walking on from a state that has allocated `seen` names. */
  lemma {:induction false} WalkOn(c: nat, seen: seq<seq<byte>>, acc: Walk, records: seq<Record>)
    requires acc.counter == c + |seen| && Allocated(c, seen, acc.bindings)
    requires c + |seen| + |Names(records)| < U32
    ensures var r := Fold(acc, records, true);
      r.counter == c + |seen| + |Names(records)| && Allocated(c, seen + Names(records), r.bindings)
    decreases |records|
  {
    hide Allocated, Named;
    if records == [] {
      assert seen + [] == seen;
    } else {
      var rec, rest := records[0], records[1..];
      var acc' := Visit(acc, rec, true);
      if Named(rec) {
        AllocatedSnoc(c, seen, acc.bindings, rec.blob);
        WalkOn(c, seen + [rec.blob], acc', rest);
        ConcatAssociative(seen, [rec.blob], Names(rest));
      } else {
        WalkOn(c, seen, acc', rest);
        assert seen + ([] + Names(rest)) == seen + Names(rest);
      }
    }
  }

  /** While the counter does not wrap, the names of a module get the counter's next values: each name
      the start value plus the index of its last record, in preorder over the whole tree. */
  lemma ModuleBindings(c: nat, blocks: seq<Block>)
    requires c + |Names(PreorderAll(blocks))| < U32
    ensures var r, names := Fold(Walk(c, map[], false), PreorderAll(blocks), true), Names(PreorderAll(blocks));
      r.counter == c + |names| && Allocated(c, names, r.bindings)
  {
    hide Fold, Names, PreorderAll;
    var names := Names(PreorderAll(blocks));
    WalkOn(c, [], Walk(c, map[], false), PreorderAll(blocks));
    assert [] + names == names;
  }

  /** The counter wraps: it ends at the number of names met, from its start, modulo 2^32. */
  lemma {:induction false} CounterWraps(acc: Walk, records: seq<Record>)
    requires acc.counter < U32
    ensures Fold(acc, records, true).counter == (acc.counter + |Names(records)|) % U32
    decreases |records|
  {
    hide Named;
    if records != [] {
      CounterWraps(Visit(acc, records[0], true), records[1..]);
    }
  }

  /** Different names never share a binding, and all bindings are below the final counter. */
  lemma DistinctBindings(c: nat, names: seq<seq<byte>>, bindings: map<seq<byte>, BindingModifier>)
    requires Allocated(c, names, bindings)
    ensures forall a, b | a in bindings && b in bindings && a != b :: bindings[a].binding != bindings[b].binding
    ensures forall a <- bindings :: c <= bindings[a].binding < c + |names|
  {
    forall a, b | a in bindings && b in bindings && a != b ensures bindings[a].binding != bindings[b].binding {
      var j :| LastAt(names, a, j) && bindings[a] == BindingModifier(0, c + j, true, true);
      var k :| LastAt(names, b, k) && bindings[b] == BindingModifier(0, c + k, true, true);
    }
  }

  /** Without argument buffers nothing is allocated. */
  lemma {:induction false} NothingAllocated(acc: Walk, records: seq<Record>)
    ensures var r := Fold(acc, records, false); r.counter == acc.counter && r.bindings == acc.bindings
    decreases |records|
  {
    if records != [] {
      NothingAllocated(Visit(acc, records[0], false), records[1..]);
    }
  }

  /** The barrier flag says whether some record has code 5 or 6. */
  lemma {:induction false} BarrierFix(acc: Walk, records: seq<Record>, hasAb: bool)
    ensures Fold(acc, records, hasAb).barrierFix <==>
      acc.barrierFix || exists rec <- records :: rec.code == 5 || rec.code == 6
    decreases |records|
  {
    if records != [] {
      BarrierFix(Visit(acc, records[0], hasAb), records[1..], hasAb);
      assert forall rec :: rec in records <==> rec == records[0] || rec in records[1..];
    }
  }

  /** The maps one transformer gives the modules it is handed in turn. */
  function Modules(c: nat, modules: seq<AirModule>): seq<map<seq<byte>, BindingModifier>>
    decreases |modules|
  {
    if modules == [] then []
    else
      var r := Fold(Walk(c, map[], false), PreorderAll(modules[0].blocks), ArgumentBufferUsage in modules[0].features);
      [r.bindings] + Modules(r.counter, modules[1..])
  }

  /** The names of all modules that use argument buffers. */
  function TotalNames(modules: seq<AirModule>): nat {
    if modules == [] then 0
    else
      (if ArgumentBufferUsage in modules[0].features then |Names(PreorderAll(modules[0].blocks))| else 0)
      + TotalNames(modules[1..])
  }

  /** The maps' bindings lie at or above c, and each map's lie above all of an earlier one's. */
  ghost predicate Stacked(c: nat, maps: seq<map<seq<byte>, BindingModifier>>) {
    && (forall i, a | 0 <= i < |maps| && a in maps[i] :: c <= maps[i][a].binding)
    && (forall i, j, a, b | 0 <= i < j < |maps| && a in maps[i] && b in maps[j] ::
          maps[i][a].binding < maps[j][b].binding)
  }

  /** A binding is never given out again: not within a module, not across the modules of a transformer. */
  lemma {:induction false} BindingsNeverReused(c: nat, modules: seq<AirModule>)
    requires c + TotalNames(modules) < U32
    ensures Stacked(c, Modules(c, modules))
    decreases |modules|
  {
    hide Fold, Names, PreorderAll;
    if modules != [] {
      var records := PreorderAll(modules[0].blocks);
      var hasAb := ArgumentBufferUsage in modules[0].features;
      var r := Fold(Walk(c, map[], false), records, hasAb);
      if hasAb {
        ModuleBindings(c, modules[0].blocks);
        DistinctBindings(c, Names(records), r.bindings);
      } else {
        NothingAllocated(Walk(c, map[], false), records);
      }
      BindingsNeverReused(r.counter, modules[1..]);
      StackedCons(c, r.bindings, r.counter, Modules(r.counter, modules[1..]));
    }
  }

  lemma StackedCons(c: nat, first: map<seq<byte>, BindingModifier>, c': nat, rest: seq<map<seq<byte>, BindingModifier>>)
    requires c <= c' && (forall a <- first :: c <= first[a].binding < c') && Stacked(c', rest)
    ensures Stacked(c, [first] + rest)
  {
    var maps: seq<map<seq<byte>, BindingModifier>> := [first] + rest;
    forall i, a | 0 <= i < |maps| && a in maps[i] ensures c <= maps[i][a].binding {
      if i > 0 { assert maps[i] == rest[i - 1]; }
    }
    forall i, j, a, b | 0 <= i < j < |maps| && a in maps[i] && b in maps[j]
      ensures maps[i][a].binding < maps[j][b].binding
    {
      assert maps[j] == rest[j - 1];
      if i > 0 { assert maps[i] == rest[i - 1]; }
    }
  }
}
