/**
 The agent's side of a filter change as it runs: `FilterMaps::apply` writes the kernel maps one
 entry at a time, and the control loop rolls its own configuration back when a write fails.
 `budget` is the number of map writes that succeed before the next one fails.
 */
module FilterAgent {
  import opened Common
  import opened FilterSwitch

  lemma PerformOne(k: Kernel, ws: seq<Write>, w: Write)
    ensures PerformAll(k, ws + [w]) == Perform(PerformAll(k, ws), w)
  {
    assert (ws + [w])[..|ws|] == ws;
  }

  lemma PerformNext(k: Kernel, done: seq<Write>, ws: seq<Write>, i: nat)
    requires i < |ws|
    ensures PerformAll(k, done + ws[..i + 1]) == Perform(PerformAll(k, done + ws[..i]), ws[i])
  {
    PerformOne(k, done + ws[..i], ws[i]);
    assert done + ws[..i + 1] == done + ws[..i] + [ws[i]];
  }

  /** The key writes of the first `n` dimensions. */
  ghost function KeysUpTo(c: Config, n: nat): seq<Write>
    requires n <= |DIMS|
  {
    AllKeyWrites(c, DIMS[..n])
  }

  lemma {:induction false} KeysGrow(c: Config, n: nat)
    requires n < |DIMS|
    ensures KeysUpTo(c, n + 1) == KeysUpTo(c, n) + KeyWrites(c, DIMS[n])
    ensures KeysUpTo(c, n + 1) <= AllKeyWrites(c, DIMS)
    decreases |DIMS| - n
  {
    assert DIMS[..n + 1][..n] == DIMS[..n];
    if n + 1 < |DIMS| { KeysGrow(c, n + 1); } else { assert DIMS[..n + 1] == DIMS; }
  }

  lemma PrefixSplit(ws: seq<Write>, a: seq<Write>, b: seq<Write>, n: nat)
    requires a + b <= ws && n <= |b|
    ensures ws[..|a| + n] == a + b[..n]
  {
  }

  /** Only the last write of a staging moves the active generation. */
  lemma {:induction false} PrefixKeepsActive(k: Kernel, c: Config, collector: u32, n: nat)
    requires n < |Writes(c, collector)|
    ensures PerformAll(k, Writes(c, collector)[..n]).active == k.active
  {
    var ws := Writes(c, collector);
    if n > 0 {
      WritesShape(c, collector);
      PrefixKeepsActive(k, c, collector, n - 1);
      assert ws[..n] == ws[..n - 1] + [ws[n - 1]];
      PerformOne(k, ws[..n - 1], ws[n - 1]);
      assert n - 1 < |ws| - 2 ==> ws[n - 1] in ws[..|ws| - 2];
    }
  }

  class FilterMaps {
    var kernel: Kernel

    /** `insert_filter_values` for dimension `n`: stops at the first insert that fails. */
    method InsertValues(c: Config, n: nat, budget: nat, ghost start: Kernel)
      returns (ok: bool, left: nat)
      requires n < |DIMS| && kernel == PerformAll(start, KeysUpTo(c, n))
      modifies this
      ensures ok <==> |KeysUpTo(c, n + 1)| <= |KeysUpTo(c, n)| + budget
      ensures ok ==> left == |KeysUpTo(c, n)| + budget - |KeysUpTo(c, n + 1)| &&
                     kernel == PerformAll(start, KeysUpTo(c, n + 1))
      ensures !ok ==> |KeysUpTo(c, n)| + budget < |AllKeyWrites(c, DIMS)|
      ensures !ok ==> kernel == PerformAll(start, AllKeyWrites(c, DIMS)[..|KeysUpTo(c, n)| + budget])
    {
      ghost var done, ws := KeysUpTo(c, n), KeyWrites(c, DIMS[n]);
      KeysGrow(c, n);
      var values, i := Values(c.filter, DIMS[n]), 0;
      left := budget;
      assert done + ws[..0] == done;
      while i < |values|
        invariant 0 <= i <= |values| && left + i == budget
        invariant kernel == PerformAll(start, done + ws[..i])
      {
        if left == 0 {
          PrefixSplit(AllKeyWrites(c, DIMS), done, ws, budget);
          return false, 0;
        }
        kernel := kernel.(keys := kernel.keys + {Key(DIMS[n], c.generation, values[i])});
        PerformNext(start, done, ws, i);
        left, i := left - 1, i + 1;
      }
      assert ws[..i] == ws;
      ok := true;
    }

    /** The five key maps: process, thread, user, device and operation keys. */
    method StageKeys(c: Config, budget: nat) returns (ok: bool, left: nat)
      modifies this
      ensures ok <==> |AllKeyWrites(c, DIMS)| <= budget
      ensures ok ==> left == budget - |AllKeyWrites(c, DIMS)| &&
                     kernel == PerformAll(old(kernel), AllKeyWrites(c, DIMS))
      ensures !ok ==> kernel == PerformAll(old(kernel), AllKeyWrites(c, DIMS)[..budget])
    {
      ghost var start := kernel;
      assert KeysUpTo(c, 0) == [];
      ok, left := true, budget;
      for n := 0 to |DIMS|
        invariant ok && left + |KeysUpTo(c, n)| == budget
        invariant kernel == PerformAll(start, KeysUpTo(c, n))
      {
        ok, left := InsertValues(c, n, left, start);
        if !ok { return; }
      }
      assert DIMS[..|DIMS|] == DIMS;
    }

    /** Performs the staging writes in order up to the first failure, or all of them. */
    method Apply(c: Config, collector: u32, budget: nat) returns (ok: bool)
      modifies this
      ensures ok <==> c.filter.files == [] && |Writes(c, collector)| <= budget
      ensures c.filter.files != [] ==> kernel == old(kernel)
      ensures c.filter.files == [] ==>
        kernel == PerformAll(old(kernel), Writes(c, collector)[..Min(budget, |Writes(c, collector)|)])
    {
      if c.filter.files != [] { return false; }
      ghost var start, ws, keys := kernel, Writes(c, collector), AllKeyWrites(c, DIMS);
      var raw, left := RawOf(c, collector), 0;
      ok, left := StageKeys(c, budget);
      if !ok { assert ws[..budget] == keys[..budget]; return; }
      if left == 0 { assert ws[..budget] == keys; return false; }
      kernel := kernel.(configs := kernel.configs[c.generation := raw]);
      PerformOne(start, keys, PutConfig(raw));
      if left == 1 { assert ws[..budget] == keys + [PutConfig(raw)]; return false; }
      kernel := kernel.(active := c.generation);
      PerformOne(start, keys + [PutConfig(raw)], Activate(c.generation));
      assert ws[..|ws|] == keys + [PutConfig(raw)] + [Activate(c.generation)];
    }
  }

  class Agent {
    var active: Config
    const maps: FilterMaps
    const collector: u32

    constructor (config: Config, maps: FilterMaps, collector: u32)
      ensures active == config && this.maps == maps && this.collector == collector
    {
      active, this.maps, this.collector := config, maps, collector;
    }

    /** `apply_control_command`: replaces the configuration or leaves it alone. */
    method ApplyControlCommand(command: Command) returns (ack: Ack)
      modifies this
      ensures Accepted(old(active), command) ==>
        active == Requested(old(active), command) &&
        ack == Ack(active.generation, active.generation, true)
      ensures !Accepted(old(active), command) ==>
        active == old(active) &&
        ack == Ack(Requested(active, command).generation, active.generation, false)
    {
      var requested := Requested(active, command);
      if requested.generation <= active.generation || !Valid(requested) {
        return Ack(requested.generation, active.generation, false);
      }
      active := requested;
      ack := Ack(requested.generation, requested.generation, true);
    }

    /** One command of the control loop. However many writes succeed, the agent's configuration,
        the acknowledgement and the kernel's active generation agree afterwards. */
    method HandleCommand(command: Command, budget: nat) returns (ack: Ack)
      requires active.generation == maps.kernel.active
      modifies this, maps
      ensures ack.active == active.generation == maps.kernel.active
      ensures ack.requested == Requested(old(active), command).generation
      ensures ack.applied <==>
        Accepted(old(active), command) && Requested(old(active), command).filter.files == [] &&
        |Writes(Requested(old(active), command), collector)| <= budget
      ensures ack.applied ==>
        active == Requested(old(active), command) && active.generation > old(active).generation &&
        maps.kernel == PerformAll(old(maps.kernel), Writes(active, collector))
      ensures !ack.applied ==> active == old(active)
    {
      var previous := active;
      ack := ApplyControlCommand(command);
      if ack.applied {
        ghost var ws := Writes(active, collector);
        var ok := maps.Apply(active, collector, budget);
        if ok {
          assert ws[..|ws|] == ws;
          PerformWrites(old(maps.kernel), active, collector);
        } else {
          if active.filter.files == [] { PrefixKeepsActive(old(maps.kernel), active, collector, budget); }
          active := previous;
          ack := Ack(ack.requested, active.generation, false);
        }
      }
    }
  }
}
