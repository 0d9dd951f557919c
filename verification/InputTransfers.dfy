/** PrepareIfrtInputs of jaxlib/pjit.cc: one array on the device for every argument that is kept. */
module InputTransfers {
  import opened Wrappers
  import opened Lists

  type Device = nat
  type Memory = nat
  type Layout = nat
  type Buffer = nat

  /** A jax.Array: its buffer, the number of devices of its sharding, the first of them, its memory
      kind and its layout. */
  datatype JaxArray = JaxArray(buffer: Buffer, numDevices: nat, device: Device, memory: Memory, layout: Layout)

  /** A flattened argument; a value that is not a jax.Array is only handed on. */
  datatype Argument = HostValue(id: nat) | Array(held: JaxArray)

  datatype Sharding = Sharding(id: nat, memory: Memory)

  /** What the executable wants at an input. */
  datatype Input = Input(sharding: Sharding, layout: Option<Layout>)

  datatype Executable = Executable(numDevices: nat, addressable: seq<Device>)

  /** The operations outside this code; each may fail. */
  datatype Runtime = Runtime(
    devicePut: (nat, Device) -> Option<Buffer>,
    fallback: (Argument, Input) -> Option<Buffer>,
    copy: (JaxArray, Device, Memory) -> Option<Buffer>)

  type Key = (Device, Memory, Memory)

  datatype CopyGroup = CopyGroup(indices: seq<nat>, arrays: seq<JaxArray>)

  // ---------- one argument on its own ----------

  predicate NeedsFallback(exec: Executable, arg: Argument, input: Input) {
    if arg.HostValue? then !(exec.numDevices == 1 && exec.addressable != [] && input.layout.None?)
    else (input.layout.Some? && input.layout.value != arg.held.layout) || arg.held.numDevices != exec.numDevices
  }

  /** A committed array that is on another device. */
  predicate Elsewhere(exec: Executable, arg: Argument, input: Input) {
    && arg.Array? && !NeedsFallback(exec, arg, input)
    && arg.held.numDevices == 1 && exec.addressable != [] && arg.held.device != exec.addressable[0]
  }

  /** What becomes of an argument. */
  function Transfer(rt: Runtime, exec: Executable, arg: Argument, input: Input): Option<Buffer> {
    if NeedsFallback(exec, arg, input) then rt.fallback(arg, input)
    else if arg.HostValue? then rt.devicePut(arg.id, exec.addressable[0])
    else if Elsewhere(exec, arg, input) then rt.copy(arg.held, exec.addressable[0], input.sharding.memory)
    else Some(arg.held.buffer)
  }

  function KeyOf(arg: Argument, input: Input): Key
    requires arg.Array?
  {
    (arg.held.device, arg.held.memory, input.sharding.memory)
  }

  /** Where everything outside works except the fall-back. */
  function NoFallback(b: Buffer): Runtime {
    Runtime((id, d) => Some(b), (arg, input) => None, (x, d, k) => Some(b))
  }

  function NothingWorks(): Runtime {
    Runtime((id, d) => None, (arg, input) => None, (x, d, k) => None)
  }

  /** An argument cannot fail, whatever happens outside, exactly if it is an array with the executable's
      number of devices and with the wanted layout, if any is wanted, and it is not alone on another device.
      It is then used as it is. */
  lemma UsedAsItIs(exec: Executable, arg: Argument, input: Input)
    ensures (forall rt: Runtime :: Transfer(rt, exec, arg, input).Some?)
       <==> && arg.Array? && arg.held.numDevices == exec.numDevices
            && (input.layout.Some? ==> input.layout.value == arg.held.layout)
            && !(arg.held.numDevices == 1 && exec.addressable != [] && arg.held.device != exec.addressable[0])
    ensures (forall rt: Runtime :: Transfer(rt, exec, arg, input).Some?) ==>
              arg.Array? && forall rt: Runtime :: Transfer(rt, exec, arg, input) == Some(arg.held.buffer)
  {
    if !arg.Array? || NeedsFallback(exec, arg, input) || Elsewhere(exec, arg, input) {
      assert Transfer(NothingWorks(), exec, arg, input) == None;
    }
  }

  /** An argument needs the Python fall-back exactly if it is a host value and the executable does not run on
      one known device or wants a layout, or an array with another number of devices or another layout than
      wanted. */
  lemma NeedsPython(exec: Executable, arg: Argument, input: Input)
    ensures (forall rt: Runtime :: rt.fallback(arg, input) == None ==> Transfer(rt, exec, arg, input) == None)
       <==> if arg.HostValue? then exec.numDevices != 1 || exec.addressable == [] || input.layout.Some?
            else
              || arg.held.numDevices != exec.numDevices
              || (input.layout.Some? && input.layout.value != arg.held.layout)
  {
    var rt := NoFallback(0);
    assert rt.fallback(arg, input) == None;
    if !NeedsFallback(exec, arg, input) {
      assert Transfer(rt, exec, arg, input).Some?;
    }
  }

  /** On one device, host values are put on it, and arrays that are alone on another device are copied to it,
      into the memory of the input. */
  lemma MovedToDevice(rt: Runtime, exec: Executable, arg: Argument, input: Input)
    requires exec.numDevices == 1 && exec.addressable != [] && input.layout.None?
    ensures arg.HostValue? ==> Transfer(rt, exec, arg, input) == rt.devicePut(arg.id, exec.addressable[0])
    ensures arg.Array? && arg.held.numDevices == 1 && arg.held.device != exec.addressable[0] ==>
              Transfer(rt, exec, arg, input) == rt.copy(arg.held, exec.addressable[0], input.sharding.memory)
  {
  }

  // ---------- the copy groups ----------

  /** The entries of a group are arrays that are elsewhere, with the places of their copies. */
  ghost predicate GroupOk(exec: Executable, args: seq<Argument>, inputs: seq<Input>, n: nat, key: Key, g: CopyGroup)
    requires n <= |args| == |inputs|
  {
    && |g.indices| == |g.arrays| > 0
    && forall p :: 0 <= p < |g.indices| ==>
         var j := g.indices[p];
         j < n && Elsewhere(exec, args[j], inputs[j]) && args[j].held == g.arrays[p] && KeyOf(args[j], inputs[j]) == key
  }

  /** All the groups together hold all the arrays that are elsewhere, among the first `n`. */
  ghost predicate GroupsOk(exec: Executable, args: seq<Argument>, inputs: seq<Input>, n: nat,
                           groups: map<Key, CopyGroup>)
    requires n <= |args| == |inputs|
  {
    && (forall key :: key in groups ==> GroupOk(exec, args, inputs, n, key, groups[key]))
    && forall j :: 0 <= j < n && Elsewhere(exec, args[j], inputs[j]) ==>
         KeyOf(args[j], inputs[j]) in groups && j in groups[KeyOf(args[j], inputs[j])].indices
  }

  /** Slot `j` holds what becomes of argument `j`, unless its copy is pending. */
  ghost predicate SlotOk(rt: Runtime, exec: Executable, arg: Argument, input: Input, pending: set<Key>,
                         slot: Option<Buffer>) {
    (Elsewhere(exec, arg, input) && KeyOf(arg, input) in pending)
        || (slot.Some? && slot == Transfer(rt, exec, arg, input))
  }

  ghost predicate SlotsOk(rt: Runtime, exec: Executable, args: seq<Argument>, inputs: seq<Input>, pending: set<Key>,
                          slots: seq<Option<Buffer>>)
    requires |slots| <= |args| == |inputs|
  {
    forall j :: 0 <= j < |slots| ==> SlotOk(rt, exec, args[j], inputs[j], pending, slots[j])
  }

  /** Every argument can be transferred. */
  ghost predicate AllTransfer(rt: Runtime, exec: Executable, args: seq<Argument>, inputs: seq<Input>)
    requires |args| == |inputs|
  {
    forall j :: 0 <= j < |args| ==> Transfer(rt, exec, args[j], inputs[j]).Some?
  }

  function Extended(groups: map<Key, CopyGroup>, key: Key, j: nat, a: JaxArray): map<Key, CopyGroup> {
    var g := if key in groups then groups[key] else CopyGroup([], []);
    groups[key := CopyGroup(g.indices + [j], g.arrays + [a])]
  }

  /** Argument `n` joins the group of its key. */
  lemma GroupsExtended(exec: Executable, args: seq<Argument>, inputs: seq<Input>, n: nat, groups: map<Key, CopyGroup>)
    requires n < |args| == |inputs| && GroupsOk(exec, args, inputs, n, groups) && Elsewhere(exec, args[n], inputs[n])
    ensures GroupsOk(exec, args, inputs, n + 1, Extended(groups, KeyOf(args[n], inputs[n]), n, args[n].held))
  {
    hide Elsewhere;
    assert args[n].Array? by { GroupsMember(exec, args, inputs, n); }
    var key := KeyOf(args[n], inputs[n]);
    var groups' := Extended(groups, key, n, args[n].held);
    hide KeyOf;
    forall k | k in groups' ensures GroupOk(exec, args, inputs, n + 1, k, groups'[k]) {
      if k in groups {
        assert GroupOk(exec, args, inputs, n, k, groups[k]);
      }
    }
    forall j | 0 <= j < n + 1 && Elsewhere(exec, args[j], inputs[j])
      ensures args[j].Array? && KeyOf(args[j], inputs[j]) in groups' && j in groups'[KeyOf(args[j], inputs[j])].indices
    {
      GroupsMember(exec, args, inputs, j);
    }
  }

  lemma GroupsMember(exec: Executable, args: seq<Argument>, inputs: seq<Input>, j: nat)
    requires j < |args| == |inputs|
    ensures Elsewhere(exec, args[j], inputs[j]) ==> args[j].Array?
  {
  }

  /** ifrt_client->CopyArrays */
  method CopyArrays(rt: Runtime, arrays: seq<JaxArray>, device: Device, memory: Memory) returns (r: Option<seq<Buffer>>)
    ensures r.Some? <==> forall p :: 0 <= p < |arrays| ==> rt.copy(arrays[p], device, memory).Some?
    ensures r.Some? ==>
              |r.value| == |arrays|
              && forall p :: 0 <= p < |arrays| ==> Some(r.value[p]) == rt.copy(arrays[p], device, memory)
  {
    var buffers := [];
    for p := 0 to |arrays|
      invariant |buffers| == p
      invariant forall q :: 0 <= q < p ==> Some(buffers[q]) == rt.copy(arrays[q], device, memory)
    {
      var b := rt.copy(arrays[p], device, memory);
      if b.None? {
        return None;
      }
      buffers := buffers + [b.value];
    }
    r := Some(buffers);
  }

  /** The copies of one group are put into their slots. */
  method CopyOneGroup(rt: Runtime, exec: Executable, ghost args: seq<Argument>, ghost inputs: seq<Input>,
                      ghost pending: set<Key>, key: Key, group: CopyGroup, slots: seq<Option<Buffer>>)
    returns (r: Option<seq<Option<Buffer>>>)
    requires |slots| == |args| == |inputs| && GroupOk(exec, args, inputs, |slots|, key, group) && key in pending
    requires SlotsOk(rt, exec, args, inputs, pending, slots)
    requires forall j :: 0 <= j < |args| && Elsewhere(exec, args[j], inputs[j]) && KeyOf(args[j], inputs[j]) == key ==>
               j in group.indices
    requires exec.addressable != []
    ensures r.None? ==> !AllTransfer(rt, exec, args, inputs)
    ensures r.Some? ==> |r.value| == |slots| && SlotsOk(rt, exec, args, inputs, pending - {key}, r.value)
  {
    var copies := CopyArrays(rt, group.arrays, exec.addressable[0], key.2);
    if copies.None? {
      ghost var p :| 0 <= p < |group.arrays| && rt.copy(group.arrays[p], exec.addressable[0], key.2).None?;
      assert Transfer(rt, exec, args[group.indices[p]], inputs[group.indices[p]]).None?;
      return None;
    }
    var result := slots;
    for p := 0 to |copies.value|
      invariant |result| == |slots|
      invariant SlotsOk(rt, exec, args, inputs, pending, result)
      invariant forall q :: 0 <= q < p ==> result[group.indices[q]].Some?
                                           && result[group.indices[q]]
                                              == Transfer(rt, exec, args[group.indices[q]], inputs[group.indices[q]])
    {
      result := result[group.indices[p] := Some(copies.value[p])];
    }
    forall j | 0 <= j < |result| ensures SlotOk(rt, exec, args[j], inputs[j], pending - {key}, result[j]) {
      assert SlotOk(rt, exec, args[j], inputs[j], pending, result[j]);
      if Elsewhere(exec, args[j], inputs[j]) && KeyOf(args[j], inputs[j]) == key {
        ghost var q :| 0 <= q < |group.indices| && group.indices[q] == j;
        assert result[group.indices[q]].Some?;
      }
    }
    r := Some(result);
  }

  /** The groups are copied one after the other, in any order. */
  method CopyGroups(rt: Runtime, exec: Executable, ghost args: seq<Argument>, ghost inputs: seq<Input>,
                    groups: map<Key, CopyGroup>, slots: seq<Option<Buffer>>)
    returns (r: Option<seq<Option<Buffer>>>)
    requires |slots| == |args| == |inputs| && GroupsOk(exec, args, inputs, |slots|, groups)
    requires SlotsOk(rt, exec, args, inputs, groups.Keys, slots)
    requires groups != map[] ==> exec.addressable != []
    ensures r.None? ==> !AllTransfer(rt, exec, args, inputs)
    ensures r.Some? ==> |r.value| == |slots| && SlotsOk(rt, exec, args, inputs, {}, r.value)
  {
    var result, remaining := slots, groups.Keys;
    while remaining != {}
      invariant |result| == |slots| && remaining <= groups.Keys
      invariant SlotsOk(rt, exec, args, inputs, remaining, result)
    {
      hide SlotsOk, Elsewhere, KeyOf, AllTransfer;
      var key :| key in remaining;
      assert key in groups;
      assert GroupOk(exec, args, inputs, |slots|, key, groups[key]);
      forall j | 0 <= j < |args| && Elsewhere(exec, args[j], inputs[j])
        ensures args[j].Array? && (KeyOf(args[j], inputs[j]) == key ==> j in groups[key].indices)
      {
        GroupsMember(exec, args, inputs, j);
      }
      var copied := CopyOneGroup(rt, exec, args, inputs, remaining, key, groups[key], result);
      if copied.None? {
        return None;
      }
      result, remaining := copied.value, remaining - {key};
    }
    r := Some(result);
  }

  // ---------- the loop over the arguments ----------

  /** How the arguments that are kept line up with the executable's inputs. */
  lemma KeptNext(args: seq<Argument>, kept: seq<bool>, i: nat)
    requires i < |args| == |kept|
    ensures var done, all := Select(kept[..i], true, args[..i]), Select(kept, true, args);
            && Select(kept[..i + 1], true, args[..i + 1]) == done + (if kept[i] then [args[i]] else [])
            && |done| <= |all| && (kept[i] ==> |done| < |all| && all[|done|] == args[i])
  {
    var k0, a0 := kept[i..], args[i..];
    assert kept == kept[..i] + k0 && args == args[..i] + a0;
    SelectAppend(kept[..i], true, args[..i], k0, a0);
    assert kept[..i + 1] == kept[..i] + [kept[i]] && args[..i + 1] == args[..i] + [args[i]];
    SelectAppend(kept[..i], true, args[..i], [kept[i]], [args[i]]);
    assert [kept[i]][1..] == [] && [args[i]][1..] == [];
    assert Select([kept[i]], true, [args[i]]) == if kept[i] then [args[i]] else [];
  }

  lemma SlotAdded(rt: Runtime, exec: Executable, args: seq<Argument>, inputs: seq<Input>, pending: set<Key>,
                  pending': set<Key>, slots: seq<Option<Buffer>>, slot: Option<Buffer>)
    requires |slots| < |args| == |inputs| && SlotsOk(rt, exec, args, inputs, pending, slots) && pending <= pending'
    requires SlotOk(rt, exec, args[|slots|], inputs[|slots|], pending', slot)
    ensures SlotsOk(rt, exec, args, inputs, pending', slots + [slot])
  {
  }

  /** The argument gets its slot now. */
  lemma GroupsKept(exec: Executable, args: seq<Argument>, inputs: seq<Input>, n: nat, groups: map<Key, CopyGroup>)
    requires n < |args| == |inputs| && GroupsOk(exec, args, inputs, n, groups) && !Elsewhere(exec, args[n], inputs[n])
    ensures GroupsOk(exec, args, inputs, n + 1, groups)
  {
  }

  lemma SlotFilled(rt: Runtime, exec: Executable, args: seq<Argument>, inputs: seq<Input>, groups: map<Key, CopyGroup>,
                   slots: seq<Option<Buffer>>, slot: Option<Buffer>)
    requires |slots| < |args| == |inputs| && !Elsewhere(exec, args[|slots|], inputs[|slots|])
    requires GroupsOk(exec, args, inputs, |slots|, groups) && SlotsOk(rt, exec, args, inputs, groups.Keys, slots)
    requires SlotOk(rt, exec, args[|slots|], inputs[|slots|], groups.Keys, slot)
    ensures GroupsOk(exec, args, inputs, |slots| + 1, groups)
    ensures SlotsOk(rt, exec, args, inputs, groups.Keys, slots + [slot])
  {
    hide GroupsOk, SlotsOk, SlotOk, Elsewhere;
    GroupsKept(exec, args, inputs, |slots|, groups);
    SlotAdded(rt, exec, args, inputs, groups.Keys, groups.Keys, slots, slot);
  }

  /** The argument gets its slot when its group is copied. */
  lemma SlotPending(rt: Runtime, exec: Executable, args: seq<Argument>, inputs: seq<Input>, groups: map<Key, CopyGroup>,
                    slots: seq<Option<Buffer>>, groups': map<Key, CopyGroup>)
    requires |slots| < |args| == |inputs| && Elsewhere(exec, args[|slots|], inputs[|slots|]) && args[|slots|].Array?
    requires GroupsOk(exec, args, inputs, |slots|, groups) && SlotsOk(rt, exec, args, inputs, groups.Keys, slots)
    requires groups' == Extended(groups, KeyOf(args[|slots|], inputs[|slots|]), |slots|, args[|slots|].held)
    ensures GroupsOk(exec, args, inputs, |slots| + 1, groups')
    ensures SlotsOk(rt, exec, args, inputs, groups'.Keys, slots + [None])
  {
    var key := KeyOf(args[|slots|], inputs[|slots|]);
    assert SlotOk(rt, exec, args[|slots|], inputs[|slots|], groups.Keys + {key}, None);
    hide GroupsOk, SlotsOk, SlotOk, Elsewhere;
    GroupsExtended(exec, args, inputs, |slots|, groups);
    SlotAdded(rt, exec, args, inputs, groups.Keys, groups.Keys + {key}, slots, None);
    assert groups'.Keys == groups.Keys + {key};
  }

  lemma OnlyWithDevice(exec: Executable, args: seq<Argument>, inputs: seq<Input>, n: nat, groups: map<Key, CopyGroup>)
    requires n <= |args| == |inputs| && GroupsOk(exec, args, inputs, n, groups) && groups != map[]
    ensures exec.addressable != []
  {
    var key :| key in groups;
    assert GroupOk(exec, args, inputs, n, key, groups[key]);
    var j := groups[key].indices[0];
    assert Elsewhere(exec, args[j], inputs[j]);
  }

  lemma TransferFails(rt: Runtime, exec: Executable, args: seq<Argument>, inputs: seq<Input>, j: nat)
    requires j < |args| == |inputs| && Transfer(rt, exec, args[j], inputs[j]).None?
    ensures !AllTransfer(rt, exec, args, inputs)
  {
  }

  lemma SlotsFilled(rt: Runtime, exec: Executable, args: seq<Argument>, inputs: seq<Input>, slots: seq<Option<Buffer>>)
    requires |slots| == |args| == |inputs| && SlotsOk(rt, exec, args, inputs, {}, slots)
    ensures AllTransfer(rt, exec, args, inputs)
    ensures forall j :: 0 <= j < |slots| ==> slots[j].Some? && slots[j] == Transfer(rt, exec, args[j], inputs[j])
  {
  }

  /** The end of PrepareIfrtInputs: the pending copies are made. */
  method FinishCopies(rt: Runtime, exec: Executable, ghost args: seq<Argument>, ghost inputs: seq<Input>,
                      groups: map<Key, CopyGroup>, pending: seq<Option<Buffer>>)
    returns (r: Option<seq<Buffer>>)
    requires |pending| == |args| == |inputs| && GroupsOk(exec, args, inputs, |pending|, groups)
    requires SlotsOk(rt, exec, args, inputs, groups.Keys, pending)
    ensures r.Some? <==> AllTransfer(rt, exec, args, inputs)
    ensures r.Some? ==> |r.value| == |args|
                        && forall j :: 0 <= j < |args| ==> Some(r.value[j]) == Transfer(rt, exec, args[j], inputs[j])
  {
    hide GroupsOk, SlotsOk, AllTransfer, Transfer;
    var slots := pending;
    assert groups == map[] ==> groups.Keys == {};
    if groups != map[] && exec.addressable != [] {
      var copied := CopyGroups(rt, exec, args, inputs, groups, slots);
      if copied.None? {
        return None;
      }
      slots := copied.value;
    } else if groups != map[] {
      OnlyWithDevice(exec, args, inputs, |slots|, groups);
      assert false;
    }
    SlotsFilled(rt, exec, args, inputs, slots);
    r := Some(seq(|slots|, j requires 0 <= j < |slots| => slots[j].value));
  }

  /** PrepareIfrtInputs: it succeeds exactly when every kept argument can be transferred, and then
      slot `j` holds what becomes of the `j`-th of them. */
  method PrepareIfrtInputs(rt: Runtime, exec: Executable, args: seq<Argument>, kept: seq<bool>, inputs: seq<Input>)
    returns (r: Option<seq<Buffer>>)
    requires |kept| == |args| && |inputs| == |Select(kept, true, args)|
    ensures var all := Select(kept, true, args);
            && (r.Some? <==> AllTransfer(rt, exec, all, inputs))
            && (r.Some? ==> |r.value| == |all|
                            && forall j :: 0 <= j < |all| ==> Some(r.value[j]) == Transfer(rt, exec, all[j], inputs[j]))
  {
    ghost var all := Select(kept, true, args);
    var slots: seq<Option<Buffer>>, groups: map<Key, CopyGroup> := [], map[];
    var dce := 0;
    assert Select(kept[..0], true, args[..0]) == [] && GroupsOk(exec, all, inputs, 0, groups);
    assert SlotsOk(rt, exec, all, inputs, groups.Keys, []);
    assert args[..|args|] == args && kept[..|args|] == kept;
    hide Select, GroupsOk, SlotsOk, AllTransfer;
    for i := 0 to |args|
      invariant dce == |slots| == |Select(kept[..i], true, args[..i])| <= |all|
      invariant GroupsOk(exec, all, inputs, |slots|, groups)
      invariant SlotsOk(rt, exec, all, inputs, groups.Keys, slots)
    {
      KeptNext(args, kept, i);
      if kept[i] {
        var arg, input := args[i], inputs[dce];
        dce := dce + 1;
        if NeedsFallback(exec, arg, input) {
          var b := rt.fallback(arg, input);
          if b.None? {
            TransferFails(rt, exec, all, inputs, |slots|);
            return None;
          }
          SlotFilled(rt, exec, all, inputs, groups, slots, b);
          slots := slots + [b];
        } else if arg.HostValue? {
          var b := rt.devicePut(arg.id, exec.addressable[0]);
          if b.None? {
            TransferFails(rt, exec, all, inputs, |slots|);
            return None;
          }
          SlotFilled(rt, exec, all, inputs, groups, slots, b);
          slots := slots + [b];
        } else if arg.held.numDevices == 1 && exec.addressable != [] && arg.held.device != exec.addressable[0] {
          var key := (arg.held.device, arg.held.memory, input.sharding.memory);
          var extended := Extended(groups, key, |slots|, arg.held);
          SlotPending(rt, exec, all, inputs, groups, slots, extended);
          groups := extended;
          slots := slots + [None];
        } else {
          SlotFilled(rt, exec, all, inputs, groups, slots, Some(arg.held.buffer));
          slots := slots + [Some(arg.held.buffer)];
        }
      }
    }
    hide Transfer;
    r := FinishCopies(rt, exec, all, inputs, groups, slots);
  }
}
