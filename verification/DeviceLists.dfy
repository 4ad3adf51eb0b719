// The lists of audio devices: the provider's, kept by the audio thread, and the
// combo boxes', which follow by queued signals.

module DeviceLists {
  import opened Bytes

  datatype Device = Device(pwId: nat, desc: bytes)

  // The kind of a node by its media class.
  datatype Kind = Source | Sink | Other

  // A queued signal, carrying the index at the time it was sent.
  datatype Signal =
    | InputAdded(index: nat, name: bytes)
    | OutputAdded(index: nat, name: bytes)
    | InputRemoved(index: nat)
    | OutputRemoved(index: nat)
    | ListsReady

  // A combo box as a list of entries: an index behind the end inserts at the end,
  // and removes nothing.
  function InsertItem(combo: seq<bytes>, index: nat, name: bytes): seq<bytes> {
    var i := if index <= |combo| then index else |combo|;
    combo[..i] + [name] + combo[i..]
  }

  function RemoveItem(combo: seq<bytes>, index: nat): seq<bytes> {
    if index < |combo| then combo[..index] + combo[index + 1..] else combo
  }

  // The two combo boxes, and what the handling of a change makes of them.
  datatype Combos = Combos(inputs: seq<bytes>, outputs: seq<bytes>)

  function Handle(c: Combos, s: Signal): Combos {
    match s
    case InputAdded(i, name) => c.(inputs := InsertItem(c.inputs, i, name))
    case OutputAdded(i, name) => c.(outputs := InsertItem(c.outputs, i, name))
    case InputRemoved(i) => c.(inputs := RemoveItem(c.inputs, i))
    case OutputRemoved(i) => c.(outputs := RemoveItem(c.outputs, i))
    case ListsReady => c
  }

  function HandleAll(c: Combos, signals: seq<Signal>): Combos
    decreases |signals|
  {
    if signals == [] then c else HandleAll(Handle(c, signals[0]), signals[1..])
  }

  function Names(devices: seq<Device>): (r: seq<bytes>)
    ensures |r| == |devices|
  {
    if devices == [] then [] else [devices[0].desc] + Names(devices[1..])
  }

  // The first device with this id; the length when there is none.
  function Find(devices: seq<Device>, id: nat): (i: nat)
    ensures i <= |devices| && (i < |devices| ==> devices[i].pwId == id)
    ensures forall k :: 0 <= k < i ==> devices[k].pwId != id
  {
    if devices == [] || devices[0].pwId == id then 0 else 1 + Find(devices[1..], id)
  }

  function Without(devices: seq<Device>, i: nat): seq<Device>
    requires i < |devices|
  {
    devices[..i] + devices[i + 1..]
  }

  // Both sides, with the signals on the way between them.
  datatype Devices = Devices(
    inputs: seq<Device>, outputs: seq<Device>, firstRun: bool, pending: seq<Signal>, combos: Combos)

  const START: Devices := Devices([], [], true, [], Combos([], []))

  // During the first run devices are collected without a signal.
  function Add(d: Devices, kind: Kind, device: Device): Devices {
    match kind
    case Source =>
      d.(inputs := d.inputs + [device],
         pending := if d.firstRun then d.pending else d.pending + [InputAdded(|d.inputs|, device.desc)])
    case Sink =>
      d.(outputs := d.outputs + [device],
         pending := if d.firstRun then d.pending else d.pending + [OutputAdded(|d.outputs|, device.desc)])
    case Other => d
  }

  // The inputs are searched first, the outputs only when no input has the id.
  function Remove(d: Devices, id: nat): Devices {
    var i, j := Find(d.inputs, id), Find(d.outputs, id);
    if i < |d.inputs| then d.(inputs := Without(d.inputs, i), pending := d.pending + [InputRemoved(i)])
    else if j < |d.outputs| then d.(outputs := Without(d.outputs, j), pending := d.pending + [OutputRemoved(j)])
    else d
  }

  // The registry has been read: the filling of the boxes is queued.
  function Done(d: Devices): Devices {
    d.(pending := d.pending + [ListsReady], firstRun := false)
  }

  // The first filling: the devices known by then, and a placeholder each.
  function Filled(d: Devices, p: bytes, q: bytes): Devices {
    d.(combos := Combos(d.combos.inputs + (Names(d.inputs) + [p]), d.combos.outputs + (Names(d.outputs) + [q])))
  }

  function HandleNext(d: Devices, p: bytes, q: bytes): Devices {
    if d.pending == [] then d
    else
      var rest := d.(pending := d.pending[1..]);
      if d.pending[0] == ListsReady then Filled(rest, p, q)
      else rest.(combos := Handle(d.combos, d.pending[0]))
  }

  // The audio provider and the window, each updating its own fields.
  class DeviceSystem {
    const inputPlaceholder: bytes
    const outputPlaceholder: bytes
    var inDeviceList: seq<Device>
    var outDeviceList: seq<Device>
    var firstRun: bool
    var pending: seq<Signal>
    var combos: Combos

    ghost function Value(): Devices
      reads this
    {
      Devices(inDeviceList, outDeviceList, firstRun, pending, combos)
    }

    constructor (inputPlaceholder: bytes, outputPlaceholder: bytes)
      ensures Value() == START
      ensures this.inputPlaceholder == inputPlaceholder && this.outputPlaceholder == outputPlaceholder
    {
      this.inputPlaceholder, this.outputPlaceholder := inputPlaceholder, outputPlaceholder;
      inDeviceList, outDeviceList, firstRun, pending, combos := [], [], true, [], Combos([], []);
    }

    method OnRegistryAdd(kind: Kind, id: nat, desc: bytes)
      modifies this`inDeviceList, this`outDeviceList, this`pending
      ensures Value() == Add(old(Value()), kind, Device(id, desc))
    {
      var index;
      if kind == Source {
        index := |inDeviceList|;
        inDeviceList := inDeviceList + [Device(id, desc)];
        if !firstRun {
          pending := pending + [InputAdded(index, desc)];
        }
      } else if kind == Sink {
        index := |outDeviceList|;
        outDeviceList := outDeviceList + [Device(id, desc)];
        if !firstRun {
          pending := pending + [OutputAdded(index, desc)];
        }
      }
    }

    method OnRegistryRemove(id: nat)
      modifies this`inDeviceList, this`outDeviceList, this`pending
      ensures Value() == Remove(old(Value()), id)
    {
      var i := 0;
      while i < |inDeviceList|
        invariant 0 <= i <= |inDeviceList| && Value() == old(Value())
        invariant Find(inDeviceList, id) >= i
      {
        if inDeviceList[i].pwId == id {
          FoundHere(inDeviceList, id, i);
          inDeviceList := inDeviceList[..i] + inDeviceList[i + 1..];
          pending := pending + [InputRemoved(i)];
          return;
        }
        i := i + 1;
      }
      var j := 0;
      while j < |outDeviceList|
        invariant 0 <= j <= |outDeviceList| && Value() == old(Value())
        invariant Find(outDeviceList, id) >= j
      {
        if outDeviceList[j].pwId == id {
          FoundHere(outDeviceList, id, j);
          outDeviceList := outDeviceList[..j] + outDeviceList[j + 1..];
          pending := pending + [OutputRemoved(j)];
          return;
        }
        j := j + 1;
      }
    }

    // The registry has been read.
    method OnCoreDone()
      modifies this`pending, this`firstRun
      ensures Value() == Done(old(Value()))
    {
      pending := pending + [ListsReady];
      firstRun := false;
    }

    // The window takes the oldest signal.
    method HandleSignal()
      requires pending != []
      modifies this`pending, this`combos
      ensures Value() == HandleNext(old(Value()), inputPlaceholder, outputPlaceholder)
    {
      var s := pending[0];
      pending := pending[1..];
      if s == ListsReady {
        OnDeviceListsReady();
      } else {
        combos := Handle(combos, s);
      }
    }

    // The devices known by now are added to the boxes, and a placeholder each.
    method OnDeviceListsReady()
      modifies this`combos
      ensures Value() == Filled(old(Value()), inputPlaceholder, outputPlaceholder)
    {
      combos := combos.(outputs := combos.outputs + (Names(outDeviceList) + [outputPlaceholder]));
      combos := combos.(inputs := combos.inputs + (Names(inDeviceList) + [inputPlaceholder]));
    }
  }

  lemma {:induction false} FoundHere(devices: seq<Device>, id: nat, i: nat)
    requires i < |devices| && devices[i].pwId == id && Find(devices, id) >= i
    ensures Find(devices, id) == i
  {
  }

  /* The combo boxes mirror the lists */

  // Once everything pending has been handled, the combo boxes show exactly the
  // devices in order, and the placeholder behind them.
  predicate Mirrors(d: Devices, p: bytes, q: bytes) {
    HandleAll(d.combos, d.pending) == Combos(Names(d.inputs) + [p], Names(d.outputs) + [q])
  }

  // The boxes have been filled, and no second filling is pending.
  predicate InUse(d: Devices) { !d.firstRun && ListsReady !in d.pending }

  lemma {:induction false} HandleLast(c: Combos, signals: seq<Signal>, s: Signal)
    ensures HandleAll(c, signals + [s]) == Handle(HandleAll(c, signals), s)
    decreases |signals|
  {
    hide Handle;
    if signals == [] {
      assert [] + [s] == [s] && [s][1..] == [];
    } else {
      assert (signals + [s])[0] == signals[0] && (signals + [s])[1..] == signals[1..] + [s];
      HandleLast(Handle(c, signals[0]), signals[1..], s);
    }
  }

  lemma {:induction false} NamesConcat(a: seq<Device>, b: seq<Device>)
    ensures Names(a + b) == Names(a) + Names(b)
    decreases |a|
  {
    if a == [] {
      assert a + b == b;
    } else {
      assert (a + b)[0] == a[0] && (a + b)[1..] == a[1..] + b;
      NamesConcat(a[1..], b);
    }
  }

  // A device added at the end goes in front of the placeholder.
  lemma {:induction false} InsertMirrors(devices: seq<Device>, device: Device, placeholder: bytes)
    ensures InsertItem(Names(devices) + [placeholder], |devices|, device.desc)
         == Names(devices + [device]) + [placeholder]
  {
    NamesConcat(devices, [device]);
    assert Names([device]) == [device.desc] + Names([device][1..]) == [device.desc];
  }

  // A device removed anywhere goes out of the same place.
  lemma {:induction false} RemoveMirrors(devices: seq<Device>, i: nat, placeholder: bytes)
    requires i < |devices|
    ensures RemoveItem(Names(devices) + [placeholder], i) == Names(Without(devices, i)) + [placeholder]
  {
    hide Names, RemoveItem;
    NamesSplit(devices, i);
    var before, gone, behind := devices[..i], [devices[i]], devices[i + 1..];
    OneTakenOut(Names(before), Names(gone), Names(behind), [placeholder]);
  }

  lemma {:induction false} NamesSplit(devices: seq<Device>, i: nat)
    requires i < |devices|
    ensures Names(devices) == Names(devices[..i]) + (Names([devices[i]]) + Names(devices[i + 1..]))
    ensures Names(Without(devices, i)) == Names(devices[..i]) + Names(devices[i + 1..])
  {
    hide Names;
    NamesConcat(devices[..i], [devices[i]] + devices[i + 1..]);
    NamesConcat([devices[i]], devices[i + 1..]);
    NamesConcat(devices[..i], devices[i + 1..]);
    assert devices == devices[..i] + ([devices[i]] + devices[i + 1..]);
  }

  lemma {:induction false} OneTakenOut(a: seq<bytes>, b: seq<bytes>, c: seq<bytes>, d: seq<bytes>)
    requires |b| == 1
    ensures RemoveItem(a + (b + c) + d, |a|) == a + c + d
  {
    var s := a + (b + c) + d;
    assert s[..|a|] == a && s[|a| + 1..] == c + d;
    assert a + (c + d) == a + c + d;
  }

  lemma {:induction false} AddMirrors(d: Devices, kind: Kind, device: Device, p: bytes, q: bytes)
    requires InUse(d) && Mirrors(d, p, q)
    ensures InUse(Add(d, kind, device)) && Mirrors(Add(d, kind, device), p, q)
  {
    hide HandleAll, Names, InsertItem;
    match kind
    case Source =>
      HandleLast(d.combos, d.pending, InputAdded(|d.inputs|, device.desc));
      InsertMirrors(d.inputs, device, p);
    case Sink =>
      HandleLast(d.combos, d.pending, OutputAdded(|d.outputs|, device.desc));
      InsertMirrors(d.outputs, device, q);
    case Other =>
  }

  lemma {:induction false} DropMirrors(d: Devices, id: nat, p: bytes, q: bytes)
    requires InUse(d) && Mirrors(d, p, q)
    ensures InUse(Remove(d, id)) && Mirrors(Remove(d, id), p, q)
  {
    hide HandleAll, Names, RemoveItem, Without, Find;
    var i, j := Find(d.inputs, id), Find(d.outputs, id);
    if i < |d.inputs| {
      HandleLast(d.combos, d.pending, InputRemoved(i));
      RemoveMirrors(d.inputs, i, p);
    } else if j < |d.outputs| {
      HandleLast(d.combos, d.pending, OutputRemoved(j));
      RemoveMirrors(d.outputs, j, q);
    }
  }

  datatype Event = Added(kind: Kind, device: Device) | Removed(id: nat) | Handled

  function Step(d: Devices, e: Event, p: bytes, q: bytes): Devices {
    match e
    case Added(kind, device) => Add(d, kind, device)
    case Removed(id) => Remove(d, id)
    case Handled => HandleNext(d, p, q)
  }

  function Run(d: Devices, run: seq<Event>, p: bytes, q: bytes): Devices
    decreases |run|
  {
    if run == [] then d else Run(Step(d, run[0], p, q), run[1..], p, q)
  }

  // In every order of additions, removals and handling.
  lemma {:induction false} RunMirrors(d: Devices, run: seq<Event>, p: bytes, q: bytes)
    requires InUse(d) && Mirrors(d, p, q)
    ensures var e := Run(d, run, p, q);
            && InUse(e) && Mirrors(e, p, q)
            && (e.pending == [] ==> e.combos == Combos(Names(e.inputs) + [p], Names(e.outputs) + [q]))
    decreases |run|
  {
    hide Add, Remove, Handle, Names;
    if run != [] {
      match run[0] {
        case Added(kind, device) => AddMirrors(d, kind, device, p, q);
        case Removed(id) => DropMirrors(d, id, p, q);
        case Handled => assert d.pending != [] ==> d.pending[0] in d.pending;
      }
      RunMirrors(Step(d, run[0], p, q), run[1..], p, q);
    }
  }

  /* The changes of one list */

  datatype Change = Insert(index: nat, name: bytes) | Delete(index: nat)

  function Changed(box: seq<bytes>, c: Change): seq<bytes> {
    match c
    case Insert(i, name) => InsertItem(box, i, name)
    case Delete(i) => RemoveItem(box, i)
  }

  function ChangedAll(box: seq<bytes>, cs: seq<Change>): seq<bytes>
    decreases |cs|
  {
    if cs == [] then box else ChangedAll(Changed(box, cs[0]), cs[1..])
  }

  // What a signal changes in the box of the inputs, or of the outputs.
  function ChangeOf(s: Signal, input: bool): seq<Change> {
    match s
    case InputAdded(i, name) => if input then [Insert(i, name)] else []
    case OutputAdded(i, name) => if input then [] else [Insert(i, name)]
    case InputRemoved(i) => if input then [Delete(i)] else []
    case OutputRemoved(i) => if input then [] else [Delete(i)]
    case ListsReady => []
  }

  function Changes(signals: seq<Signal>, input: bool): seq<Change>
    decreases |signals|
  {
    if signals == [] then [] else ChangeOf(signals[0], input) + Changes(signals[1..], input)
  }

  // The changes as a list of that length makes them: at its end, or inside.
  predicate Fits(n: nat, cs: seq<Change>)
    decreases |cs|
  {
    cs == [] ||
    match cs[0]
    case Insert(i, _) => i == n && Fits(n + 1, cs[1..])
    case Delete(i) => i < n && Fits(n - 1, cs[1..])
  }

  // The changes that led from one list of names to another.
  predicate Leads(before: seq<bytes>, cs: seq<Change>, after: seq<bytes>) {
    Fits(|before|, cs) && ChangedAll(before, cs) == after
  }

  function Cut<T>(s: seq<T>, i: nat): seq<T>
    requires i < |s|
  {
    s[..i] + s[i + 1..]
  }

  // The places of the devices that were there before and are never removed.
  function Kept(ks: seq<nat>, cs: seq<Change>): (r: seq<nat>)
    ensures forall k <- r :: k in ks
    decreases |cs|
  {
    if cs == [] then ks
    else if cs[0].Delete? && cs[0].index < |ks| then Kept(Cut<nat>(ks, cs[0].index), cs[1..])
    else Kept(ks, cs[1..])
  }

  // The names that were added and not removed again.
  function Gained(ks: seq<nat>, xs: seq<bytes>, cs: seq<Change>): seq<bytes>
    requires Fits(|ks| + |xs|, cs)
    decreases |cs|
  {
    if cs == [] then xs
    else
      match cs[0]
      case Insert(_, name) => Gained(ks, xs + [name], cs[1..])
      case Delete(i) =>
        if i < |ks| then Gained(Cut<nat>(ks, i), xs, cs[1..])
        else Gained(ks, Cut(xs, i - |ks|), cs[1..])
  }

  function Places(n: nat): seq<nat> { seq(n, i => i) }

  function Pick(y: seq<bytes>, ks: seq<nat>): (r: seq<bytes>)
    requires forall k <- ks :: k < |y|
    ensures |r| == |ks|
  {
    seq(|ks|, j requires 0 <= j < |ks| => assert ks[j] in ks; y[ks[j]])
  }

  // The list is as long as before, and wherever a device was kept the same name
  // stands as before.
  predicate Unmoved(before: seq<bytes>, cs: seq<Change>, after: seq<bytes>) {
    |after| == |before| && forall k <- Kept(Places(|before|), cs) :: k < |before| ==> after[k] == before[k]
  }

  lemma {:induction false} PickCut(y: seq<bytes>, ks: seq<nat>, i: nat)
    requires (forall k <- ks :: k < |y|) && i < |ks|
    ensures forall k <- Cut<nat>(ks, i) :: k < |y|
    ensures Pick(y, Cut<nat>(ks, i)) == Cut(Pick(y, ks), i)
  {
    forall k <- Cut<nat>(ks, i)
      ensures k in ks
    {
      var j :| 0 <= j < |Cut<nat>(ks, i)| && Cut<nat>(ks, i)[j] == k;
      assert k == ks[if j < i then j else j + 1];
    }
  }

  lemma {:induction false} InsertBehind(a: seq<bytes>, x: bytes, tail: seq<bytes>)
    ensures InsertItem(a + tail, |a|, x) == a + [x] + tail
  {
    assert (a + tail)[..|a|] == a && (a + tail)[|a|..] == tail;
  }

  lemma {:induction false} CutInside(a: seq<bytes>, i: nat, tail: seq<bytes>)
    requires i < |a|
    ensures RemoveItem(a + tail, i) == Cut(a, i) + tail
  {
  }

  lemma {:induction false} CutJoined(a: seq<bytes>, b: seq<bytes>, i: nat)
    requires i < |a + b|
    ensures Cut(a + b, i) == if i < |a| then Cut(a, i) + b else a + Cut(b, i - |a|)
  {
  }

  // Whatever names stand in the places, changes that fit keep those of the kept
  // places in front of those gained.
  lemma {:induction false} Replayed(y: seq<bytes>, ks: seq<nat>, xs: seq<bytes>, tail: seq<bytes>, cs: seq<Change>)
    requires Fits(|ks| + |xs|, cs) && forall k <- ks :: k < |y|
    ensures forall k <- Kept(ks, cs) :: k < |y|
    ensures ChangedAll(Pick(y, ks) + xs + tail, cs) == Pick(y, Kept(ks, cs)) + Gained(ks, xs, cs) + tail
    decreases |cs|
  {
    hide Pick, Cut, InsertItem, RemoveItem;
    if cs != [] {
      var a := Pick(y, ks) + xs;
      match cs[0]
      case Insert(i, name) =>
        InsertBehind(a, name, tail);
        assert a + [name] == Pick(y, ks) + (xs + [name]);
        Replayed(y, ks, xs + [name], tail, cs[1..]);
      case Delete(i) =>
        CutInside(a, i, tail);
        CutJoined(Pick(y, ks), xs, i);
        CutLengths(ks, xs, i);
        if i < |ks| {
          PickCut(y, ks, i);
          Replayed(y, Cut<nat>(ks, i), xs, tail, cs[1..]);
        } else {
          Replayed(y, ks, Cut(xs, i - |ks|), tail, cs[1..]);
        }
    }
  }

  lemma {:induction false} CutLengths(ks: seq<nat>, xs: seq<bytes>, i: nat)
    requires i < |ks| + |xs|
    ensures i < |ks| ==> |Cut<nat>(ks, i)| == |ks| - 1
    ensures i >= |ks| ==> |Cut(xs, i - |ks|)| == |xs| - 1
  {
  }

  // In a box that is longer than the list every change fits; in one that is
  // not, deletions may miss but never so many that it outgrows the list.
  lemma {:induction false} LengthsApart(box: seq<bytes>, before: seq<bytes>, cs: seq<Change>)
    requires Fits(|before|, cs)
    ensures |box| >= |before| ==> |ChangedAll(box, cs)| - |ChangedAll(before, cs)| == |box| - |before|
    ensures |box| <= |before| ==> |ChangedAll(box, cs)| <= |ChangedAll(before, cs)|
    decreases |cs|
  {
    if cs != [] {
      LengthsApart(Changed(box, cs[0]), Changed(before, cs[0]), cs[1..]);
    }
  }

  // One box, filled after the changes and then changed by them once more.
  lemma {:induction false} ReplayMirrors(before: seq<bytes>, cs: seq<Change>, after: seq<bytes>, p: bytes)
    requires Leads(before, cs, after)
    ensures ChangedAll(after + [p], cs) == after + [p] <==> Unmoved(before, cs, after)
  {
    hide ChangedAll;
    LengthsApart(after + [p], before, cs);
    if |after| == |before| {
      var ks := Places(|before|);
      Replayed(before, ks, [], [], cs);
      Replayed(after, ks, [], [p], cs);
      AllPlaces(before, []);
      AllPlaces(after, [p]);
      var kept := Kept(ks, cs);
      var gained := Gained(ks, [], cs);
      assert before + [] == before && Pick(before, kept) + gained + [] == after;
      assert ChangedAll(after + [p], cs) == Pick(after, kept) + gained + [p];
      assert after == Pick(before, kept) + gained;
      SamePick(before, after, kept);
      SameFront(Pick(after, kept), Pick(before, kept), gained, p);
    }
  }

  lemma {:induction false} AllPlaces(y: seq<bytes>, tail: seq<bytes>)
    ensures forall k <- Places(|y|) :: k < |y|
    ensures Pick(y, Places(|y|)) + [] + tail == y + tail
  {
    assert Pick(y, Places(|y|)) == y;
  }

  lemma {:induction false} SamePick(a: seq<bytes>, b: seq<bytes>, ks: seq<nat>)
    requires |a| == |b| && forall k <- ks :: k < |a|
    ensures Pick(a, ks) == Pick(b, ks) <==> forall k <- ks :: b[k] == a[k]
  {
    if Pick(a, ks) == Pick(b, ks) {
      forall k <- ks
        ensures b[k] == a[k]
      {
        var j :| 0 <= j < |ks| && ks[j] == k;
        assert Pick(a, ks)[j] == a[k] && Pick(b, ks)[j] == b[k];
      }
    }
  }

  lemma {:induction false} SameFront(a: seq<bytes>, b: seq<bytes>, c: seq<bytes>, p: bytes)
    requires |a| == |b|
    ensures a + c + [p] == b + c + [p] <==> a == b
  {
    assert (a + c + [p])[..|a|] == a && (b + c + [p])[..|a|] == b;
  }

  /* When the filling starts the mirroring */

  lemma {:induction false} ChangesJoin(cs: seq<Change>, ds: seq<Change>, box: seq<bytes>)
    ensures ChangedAll(box, cs + ds) == ChangedAll(ChangedAll(box, cs), ds)
    decreases |cs|
  {
    hide Changed;
    if cs == [] {
      assert cs + ds == ds;
    } else {
      assert (cs + ds)[0] == cs[0] && (cs + ds)[1..] == cs[1..] + ds;
      ChangesJoin(cs[1..], ds, Changed(box, cs[0]));
    }
  }

  // The two boxes change independently.
  lemma {:induction false} HandleSplits(c: Combos, signals: seq<Signal>)
    ensures HandleAll(c, signals)
         == Combos(ChangedAll(c.inputs, Changes(signals, true)), ChangedAll(c.outputs, Changes(signals, false)))
    decreases |signals|
  {
    hide InsertItem, RemoveItem;
    if signals != [] {
      var s := signals[0];
      HandleSplits(Handle(c, s), signals[1..]);
      ChangesJoin(ChangeOf(s, true), Changes(signals[1..], true), c.inputs);
      ChangesJoin(ChangeOf(s, false), Changes(signals[1..], false), c.outputs);
      OneChange(c, s);
    }
  }

  lemma {:induction false} OneChange(c: Combos, s: Signal)
    ensures Handle(c, s) == Combos(ChangedAll(c.inputs, ChangeOf(s, true)), ChangedAll(c.outputs, ChangeOf(s, false)))
  {
    hide InsertItem, RemoveItem;
    forall box: seq<bytes>, x: Change
      ensures ChangedAll(box, [x]) == Changed(box, x)
    {
      assert [x][1..] == [];
    }
  }

  lemma {:induction false} ChangedLength(box: seq<bytes>, c: Change)
    requires c.Delete? ==> c.index < |box|
    ensures |Changed(box, c)| == if c.Insert? then |box| + 1 else |box| - 1
  {
  }

  lemma {:induction false} LeadsOn(before: seq<bytes>, cs: seq<Change>, after: seq<bytes>, c: Change)
    requires Leads(before, cs, after) && Fits(|after|, [c])
    ensures Leads(before, cs + [c], Changed(after, c))
    decreases |cs|
  {
    hide Changed;
    if cs == [] {
      assert [] + [c] == [c] && [c][1..] == [] && after == before;
      assert ChangedAll(before, [c]) == ChangedAll(Changed(before, c), []);
    } else {
      assert (cs + [c])[0] == cs[0] && (cs + [c])[1..] == cs[1..] + [c];
      ChangedLength(before, cs[0]);
      LeadsOn(Changed(before, cs[0]), cs[1..], after, c);
    }
  }

  lemma {:induction false} ChangesLast(signals: seq<Signal>, s: Signal, input: bool)
    ensures Changes(signals + [s], input) == Changes(signals, input) + ChangeOf(s, input)
    decreases |signals|
  {
    hide ChangeOf;
    if signals == [] {
      assert [] + [s] == [s] && [s][1..] == [];
    } else {
      assert (signals + [s])[0] == signals[0] && (signals + [s])[1..] == signals[1..] + [s];
      ChangesLast(signals[1..], s, input);
    }
  }

  // The filling stands k signals ahead in the queue, in front of it removals
  // only, behind it what changed the lists since they held the names ins and
  // outs. The boxes are still empty.
  predicate Awaits(d: Devices, k: nat, ins: seq<bytes>, outs: seq<bytes>) {
    && !d.firstRun && k < |d.pending| && d.pending[k] == ListsReady
    && d.combos == Combos([], [])
    && (forall i :: 0 <= i < k ==> d.pending[i].InputRemoved? || d.pending[i].OutputRemoved?)
    && ListsReady !in d.pending[k + 1..]
    && Leads(ins, Changes(d.pending[k + 1..], true), Names(d.inputs))
    && Leads(outs, Changes(d.pending[k + 1..], false), Names(d.outputs))
  }

  // The registry is still being read.
  predicate Collects(d: Devices) {
    && d.firstRun && d.combos == Combos([], [])
    && forall s <- d.pending :: s.InputRemoved? || s.OutputRemoved?
  }

  lemma {:induction false} StepCollects(d: Devices, e: Event, p: bytes, q: bytes)
    requires Collects(d)
    ensures Collects(Step(d, e, p, q))
  {
    hide Names, Find;
    if e == Handled && d.pending != [] {
      assert d.pending[0] in d.pending;
      assert forall s <- d.pending[1..] :: s in d.pending;
    }
  }

  // Reading ends with the lists as they are then.
  lemma {:induction false} DoneAwaits(d: Devices)
    requires Collects(d)
    ensures Awaits(Done(d), |d.pending|, Names(d.inputs), Names(d.outputs))
  {
    assert Done(d).pending[|d.pending| + 1..] == [];
  }

  // One more signal behind those that led so far.
  lemma {:induction false} LeadsBy(before: seq<bytes>, rest: seq<Signal>, after: seq<bytes>, s: Signal, input: bool)
    requires Leads(before, Changes(rest, input), after) && Fits(|after|, ChangeOf(s, input))
    ensures Leads(before, Changes(rest + [s], input), ChangedAll(after, ChangeOf(s, input)))
  {
    hide Changed, Changes;
    var cs := Changes(rest, input);
    ChangesLast(rest, s, input);
    if ChangeOf(s, input) == [] {
      assert cs + [] == cs;
    } else {
      var c := ChangeOf(s, input)[0];
      assert ChangeOf(s, input) == [c] && [c][1..] == [];
      LeadsOn(before, cs, after, c);
    }
  }

  lemma {:induction false} SignalledLater(d: Devices, e: Devices, s: Signal, k: nat, ins: seq<bytes>, outs: seq<bytes>)
    requires Awaits(d, k, ins, outs) && s != ListsReady
    requires e.pending == d.pending + [s] && !e.firstRun && e.combos == d.combos
    requires Names(e.inputs) == ChangedAll(Names(d.inputs), ChangeOf(s, true)) && Fits(|d.inputs|, ChangeOf(s, true))
    requires Names(e.outputs) == ChangedAll(Names(d.outputs), ChangeOf(s, false))
    requires Fits(|d.outputs|, ChangeOf(s, false))
    ensures Awaits(e, k, ins, outs)
  {
    hide Names, Fits, Changes, ChangeOf, Leads;
    var rest := d.pending[k + 1..];
    assert e.pending[k + 1..] == rest + [s];
    LeadsBy(ins, rest, Names(d.inputs), s, true);
    LeadsBy(outs, rest, Names(d.outputs), s, false);
  }

  lemma {:induction false} AddedNames(devices: seq<Device>, device: Device)
    ensures Names(devices + [device]) == ChangedAll(Names(devices), [Insert(|devices|, device.desc)])
    ensures Fits(|devices|, [Insert(|devices|, device.desc)])
  {
    NamesConcat(devices, [device]);
    InsertBehind(Names(devices), device.desc, []);
    assert Names([device]) == [device.desc];
    assert Names(devices) + [] == Names(devices);
    assert Names(devices) + [device.desc] + [] == Names(devices) + [device.desc];
    assert [Insert(|devices|, device.desc)][1..] == [];
  }

  lemma {:induction false} RemovedNames(devices: seq<Device>, i: nat)
    requires i < |devices|
    ensures Names(Without(devices, i)) == ChangedAll(Names(devices), [Delete(i)]) && Fits(|devices|, [Delete(i)])
  {
    hide Without, RemoveItem;
    NamesSplit(devices, i);
    OneTakenOut(Names(devices[..i]), Names([devices[i]]), Names(devices[i + 1..]), []);
    assert Names(devices) + [] == Names(devices);
    assert Names(Without(devices, i)) + [] == Names(Without(devices, i));
    assert [Delete(i)][1..] == [];
  }

  // Until the filling is handled, additions, removals and the handling of what
  // stands in front of it keep the wait.
  lemma {:induction false} StepAwaits(d: Devices, e: Event, k: nat, ins: seq<bytes>, outs: seq<bytes>,
                                      p: bytes, q: bytes)
    requires Awaits(d, k, ins, outs) && (e == Handled ==> k > 0)
    ensures Awaits(Step(d, e, p, q), if e == Handled then k - 1 else k, ins, outs)
  {
    hide Names, Find, Fits, ChangedAll, Leads, Without;
    NothingChanges(Names(d.inputs), Names(d.outputs));
    match e
    case Added(kind, device) =>
      if kind == Source {
        AddedNames(d.inputs, device);
        SignalledLater(d, Add(d, kind, device), InputAdded(|d.inputs|, device.desc), k, ins, outs);
      } else if kind == Sink {
        AddedNames(d.outputs, device);
        SignalledLater(d, Add(d, kind, device), OutputAdded(|d.outputs|, device.desc), k, ins, outs);
      }
    case Removed(id) =>
      var i, j := Find(d.inputs, id), Find(d.outputs, id);
      if i < |d.inputs| {
        RemovedNames(d.inputs, i);
        SignalledLater(d, Remove(d, id), InputRemoved(i), k, ins, outs);
      } else if j < |d.outputs| {
        RemovedNames(d.outputs, j);
        SignalledLater(d, Remove(d, id), OutputRemoved(j), k, ins, outs);
      }
    case Handled =>
      assert d.pending[1..][k..] == d.pending[k + 1..];
  }

  lemma {:induction false} NothingChanges(a: seq<bytes>, b: seq<bytes>)
    ensures ChangedAll(a, []) == a && ChangedAll(b, []) == b && Fits(|a|, []) && Fits(|b|, [])
  {
  }

  // The filling starts the mirroring if and only if, in both lists, the changes
  // that are pending have left every device that was kept where it was and
  // brought as many as they took.
  lemma {:induction false} FillingMirrors(d: Devices, ins: seq<bytes>, outs: seq<bytes>, p: bytes, q: bytes)
    requires Awaits(d, 0, ins, outs)
    ensures InUse(HandleNext(d, p, q))
    ensures var rest := d.pending[1..];
            (Mirrors(HandleNext(d, p, q), p, q) <==>
             && Unmoved(ins, Changes(rest, true), Names(d.inputs))
             && Unmoved(outs, Changes(rest, false), Names(d.outputs)))
  {
    hide Names, Leads, Unmoved, Changes, ChangedAll;
    var rest := d.pending[1..];
    var e := HandleNext(d, p, q);
    assert [] + (Names(d.inputs) + [p]) == Names(d.inputs) + [p];
    assert [] + (Names(d.outputs) + [q]) == Names(d.outputs) + [q];
    HandleSplits(e.combos, rest);
    ReplayMirrors(ins, Changes(rest, true), Names(d.inputs), p);
    ReplayMirrors(outs, Changes(rest, false), Names(d.outputs), q);
  }

  /* Single events */

  // Number i is the first device of the list with this identifier.
  predicate FirstWith(devices: seq<Device>, id: nat, i: nat) {
    i < |devices| && devices[i].pwId == id && forall k :: 0 <= k < i ==> devices[k].pwId != id
  }

  // The first input with the identifier goes, and only if there is none the first
  // output; the place it had is signalled, and nothing else changes.
  lemma {:induction false} RemovesFirst(d: Devices, id: nat, i: nat)
    ensures FirstWith(d.inputs, id, i) ==>
              Remove(d, id) == d.(inputs := d.inputs[..i] + d.inputs[i + 1..], pending := d.pending + [InputRemoved(i)])
    ensures (forall x <- d.inputs :: x.pwId != id) && FirstWith(d.outputs, id, i) ==>
              Remove(d, id) == d.(outputs := d.outputs[..i] + d.outputs[i + 1..],
                                  pending := d.pending + [OutputRemoved(i)])
    ensures (forall x <- d.inputs :: x.pwId != id) && (forall x <- d.outputs :: x.pwId != id) ==> Remove(d, id) == d
  {
    if FirstWith(d.inputs, id, i) { assert Find(d.inputs, id) == i; }
    if FirstWith(d.outputs, id, i) { assert Find(d.outputs, id) == i; }
  }

  // A source becomes the last input, a sink the last output, and nothing else
  // becomes anything. While the registry is read this is not signalled; later its
  // place and name are.
  lemma {:induction false} AddsLast(d: Devices, device: Device)
    ensures var r := Add(d, Source, device);
            r == d.(inputs := d.inputs + [device], pending := r.pending)
            && r.pending == (if d.firstRun then d.pending else d.pending + [InputAdded(|d.inputs|, device.desc)])
    ensures var r := Add(d, Sink, device);
            r == d.(outputs := d.outputs + [device], pending := r.pending)
            && r.pending == (if d.firstRun then d.pending else d.pending + [OutputAdded(|d.outputs|, device.desc)])
    ensures Add(d, Other, device) == d
  {
  }

  // The window handles the oldest signal, each in its own box.
  lemma {:induction false} HandlesOldest(d: Devices, p: bytes, q: bytes)
    requires d.pending != []
    ensures var r, c, rest := HandleNext(d, p, q), d.combos, d.pending[1..];
            match d.pending[0]
            case ListsReady =>
              r == d.(pending := rest, combos := Combos(c.inputs + (Names(d.inputs) + [p]),
                                                        c.outputs + (Names(d.outputs) + [q])))
            case InputAdded(i, name) =>
              i <= |c.inputs| ==>
                r == d.(pending := rest, combos := Combos(c.inputs[..i] + [name] + c.inputs[i..], c.outputs))
            case OutputAdded(i, name) =>
              i <= |c.outputs| ==>
                r == d.(pending := rest, combos := Combos(c.inputs, c.outputs[..i] + [name] + c.outputs[i..]))
            case InputRemoved(i) =>
              i < |c.inputs| ==>
                r == d.(pending := rest, combos := Combos(c.inputs[..i] + c.inputs[i + 1..], c.outputs))
            case OutputRemoved(i) =>
              i < |c.outputs| ==>
                r == d.(pending := rest, combos := Combos(c.inputs, c.outputs[..i] + c.outputs[i + 1..]))
  {
    hide Names;
  }

  /* Whole runs */

  lemma {:induction false} StepInUse(d: Devices, e: Event, p: bytes, q: bytes)
    requires InUse(d)
    ensures InUse(Step(d, e, p, q))
  {
    hide Names, Find, Handle;
    if e == Handled && d.pending != [] {
      assert d.pending[0] in d.pending;
      assert forall s <- d.pending[1..] :: s in d.pending;
    }
  }

  lemma {:induction false} RunInUse(d: Devices, run: seq<Event>, p: bytes, q: bytes)
    requires InUse(d)
    ensures InUse(Run(d, run, p, q))
    decreases |run|
  {
    hide Step, InUse;
    if run != [] {
      StepInUse(d, run[0], p, q);
      RunInUse(Step(d, run[0], p, q), run[1..], p, q);
    }
  }

  lemma {:induction false} RunCollects(d: Devices, run: seq<Event>, p: bytes, q: bytes)
    requires Collects(d)
    ensures Collects(Run(d, run, p, q))
    decreases |run|
  {
    hide Step, Collects;
    if run != [] {
      StepCollects(d, run[0], p, q);
      RunCollects(Step(d, run[0], p, q), run[1..], p, q);
    }
  }

  // As long as the filling is in the queue, it is waited for.
  lemma {:induction false} RunAwaits(d: Devices, run: seq<Event>, k: nat, ins: seq<bytes>, outs: seq<bytes>,
                                     p: bytes, q: bytes) returns (j: nat)
    requires Awaits(d, k, ins, outs) && ListsReady in Run(d, run, p, q).pending
    ensures Awaits(Run(d, run, p, q), j, ins, outs)
    decreases |run|
  {
    hide Step, Awaits;
    if run == [] {
      j := k;
    } else if run[0] == Handled && k == 0 {
      FilledInUse(d, ins, outs, p, q);
      RunInUse(Step(d, run[0], p, q), run[1..], p, q);
      assert false;
    } else {
      StepAwaits(d, run[0], k, ins, outs, p, q);
      j := RunAwaits(Step(d, run[0], p, q), run[1..], if run[0] == Handled then k - 1 else k, ins, outs, p, q);
    }
  }

  lemma {:induction false} FilledInUse(d: Devices, ins: seq<bytes>, outs: seq<bytes>, p: bytes, q: bytes)
    requires Awaits(d, 0, ins, outs)
    ensures InUse(Step(d, Handled, p, q))
  {
    hide HandleNext;
    FillingMirrors(d, ins, outs, p, q);
  }

  lemma {:induction false} AtTheFront(d: Devices, k: nat, ins: seq<bytes>, outs: seq<bytes>)
    requires Awaits(d, k, ins, outs) && d.pending[0] == ListsReady
    ensures k == 0
  {
    hide Leads, Names;
  }

  // With no signal on the way the boxes show the devices in order, and the
  // placeholder behind them.
  predicate Shows(d: Devices, p: bytes, q: bytes) {
    d.pending == [] ==> d.combos == Combos(Names(d.inputs) + [p], Names(d.outputs) + [q])
  }

  // All that is pending is handled, and nothing else happens.
  lemma {:induction false} HandleRest(d: Devices, p: bytes, q: bytes) returns (run: seq<Event>)
    requires ListsReady !in d.pending
    ensures Run(d, run, p, q) == d.(pending := [], combos := HandleAll(d.combos, d.pending))
    decreases |d.pending|
  {
    hide Handle;
    if d.pending == [] {
      run := [];
    } else {
      var e := Step(d, Handled, p, q);
      assert d.pending[0] in d.pending && forall s <- d.pending[1..] :: s in d.pending;
      var rest := HandleRest(e, p, q);
      run := [Handled] + rest;
      assert run[0] == Handled && run[1..] == rest;
    }
  }

  // The boxes show the lists ever after if and only if they mirror them now.
  lemma {:induction false} EverAfter(d: Devices, p: bytes, q: bytes)
    requires InUse(d)
    ensures Mirrors(d, p, q) <==> forall run: seq<Event> :: Shows(Run(d, run, p, q), p, q)
  {
    hide Run, Names, HandleAll;
    if Mirrors(d, p, q) {
      forall run: seq<Event>
        ensures Shows(Run(d, run, p, q), p, q)
      {
        RunMirrors(d, run, p, q);
      }
    } else {
      var run := HandleRest(d, p, q);
      assert !Shows(Run(d, run, p, q), p, q);
    }
  }

  // From the start: the registry is read during the first part of a run, the
  // filling waits during the second, and is handled next. Whatever happens then,
  // the boxes show the lists ever after if and only if the changes pending at the
  // filling have left every device that was kept where it was and brought as many
  // as they took.
  lemma {:induction false} FromTheStart(reading: seq<Event>, waiting: seq<Event>, p: bytes, q: bytes)
    requires var d := Run(Done(Run(START, reading, p, q)), waiting, p, q);
             d.pending != [] && d.pending[0] == ListsReady
    ensures var read := Run(START, reading, p, q);
            var d := Run(Done(read), waiting, p, q);
            var rest := d.pending[1..];
            (forall run: seq<Event> :: Shows(Run(HandleNext(d, p, q), run, p, q), p, q)) <==>
              && Unmoved(Names(read.inputs), Changes(rest, true), Names(d.inputs))
              && Unmoved(Names(read.outputs), Changes(rest, false), Names(d.outputs))
  {
    hide Run, Done, HandleNext, Shows, Mirrors, Unmoved, Changes, Names, Awaits, InUse;
    var read := Run(START, reading, p, q);
    var d := Run(Done(read), waiting, p, q);
    var ins, outs := Names(read.inputs), Names(read.outputs);
    RunCollects(START, reading, p, q);
    DoneAwaits(read);
    var k := RunAwaits(Done(read), waiting, |read.pending|, ins, outs, p, q);
    AtTheFront(d, k, ins, outs);
    FillingMirrors(d, ins, outs, p, q);
    EverAfter(HandleNext(d, p, q), p, q);
  }

  // Changes of one sort only never cancel.
  lemma {:induction false} OneSortMoves(before: seq<bytes>, cs: seq<Change>, after: seq<bytes>)
    requires Leads(before, cs, after)
    requires (forall c <- cs :: c.Insert?) || (forall c <- cs :: c.Delete?)
    ensures Unmoved(before, cs, after) <==> cs == []
  {
    OneSortCounts(before, cs);
  }

  lemma {:induction false} OneSortCounts(before: seq<bytes>, cs: seq<Change>)
    requires Fits(|before|, cs)
    ensures (forall c <- cs :: c.Insert?) ==> |ChangedAll(before, cs)| == |before| + |cs|
    ensures (forall c <- cs :: c.Delete?) ==> |ChangedAll(before, cs)| == |before| - |cs|
    decreases |cs|
  {
    if cs != [] {
      OneSortCounts(Changed(before, cs[0]), cs[1..]);
      assert cs[0] in cs && forall c <- cs[1..] :: c in cs;
    }
  }

  // With nothing but additions pending, or nothing but removals, the filling
  // starts the mirroring if and only if there are none.
  lemma {:induction false} OneSortPending(d: Devices, ins: seq<bytes>, outs: seq<bytes>, p: bytes, q: bytes)
    requires Awaits(d, 0, ins, outs)
    requires var rest := d.pending[1..];
             || (forall s <- rest :: s.InputAdded? || s.OutputAdded?)
             || (forall s <- rest :: s.InputRemoved? || s.OutputRemoved?)
    ensures Mirrors(HandleNext(d, p, q), p, q) <==> |d.pending| == 1
  {
    hide Names, Leads, Unmoved, Mirrors, HandleNext;
    var rest := d.pending[1..];
    FillingMirrors(d, ins, outs, p, q);
    SameSort(rest);
    OneSortMoves(ins, Changes(rest, true), Names(d.inputs));
    OneSortMoves(outs, Changes(rest, false), Names(d.outputs));
  }

  lemma {:induction false} SameSort(signals: seq<Signal>)
    requires || (forall s <- signals :: s.InputAdded? || s.OutputAdded?)
             || (forall s <- signals :: s.InputRemoved? || s.OutputRemoved?)
    ensures forall input: bool ::
              (forall c <- Changes(signals, input) :: c.Insert?) || (forall c <- Changes(signals, input) :: c.Delete?)
    ensures Changes(signals, true) == [] && Changes(signals, false) == [] <==> signals == []
    decreases |signals|
  {
    SortKept(signals, true);
    SortKept(signals, false);
    if signals != [] {
      assert signals[0] in signals;
    }
  }

  lemma {:induction false} SortKept(signals: seq<Signal>, input: bool)
    ensures (forall s <- signals :: s.InputAdded? || s.OutputAdded?) ==>
              forall c <- Changes(signals, input) :: c.Insert?
    ensures (forall s <- signals :: s.InputRemoved? || s.OutputRemoved?) ==>
              forall c <- Changes(signals, input) :: c.Delete?
    decreases |signals|
  {
    if signals != [] {
      SortKept(signals[1..], input);
      assert signals[0] in signals && forall s <- signals[1..] :: s in signals;
      assert forall c :: c in Changes(signals, input) <==>
                         c in ChangeOf(signals[0], input) || c in Changes(signals[1..], input);
    }
  }

  /* Inputs on which the filling does not start the mirroring */

  lemma {:induction false} ThreeSteps(d: Devices, e: Event, p: bytes, q: bytes)
    ensures Run(d, [e, Handled, Handled], p, q) == HandleNext(HandleNext(Step(d, e, p, q), p, q), p, q)
  {
    hide HandleNext;
    assert [e, Handled, Handled][1..] == [Handled, Handled] && [Handled, Handled][1..] == [Handled];
  }

  // A device that is added between the end of reading and the filling is shown twice.
  lemma {:induction false} LateAdditionRepeats(d: Devices, device: Device, p: bytes, q: bytes)
    requires !d.firstRun && d.pending == [ListsReady] && d.combos == Combos([], [])
    ensures Run(d, [Added(Source, device), Handled, Handled], p, q).combos.inputs
         == Names(d.inputs) + [device.desc, device.desc, p]
    ensures Run(d, [Added(Sink, device), Handled, Handled], p, q).combos.outputs
         == Names(d.outputs) + [device.desc, device.desc, q]
  {
    hide Names;
    ThreeSteps(d, Added(Source, device), p, q);
    ThreeSteps(d, Added(Sink, device), p, q);
    NamesConcat(d.inputs, [device]);
    NamesConcat(d.outputs, [device]);
    OneName(device);
    InsertBehind(Names(d.inputs), device.desc, [device.desc, p]);
    InsertBehind(Names(d.outputs), device.desc, [device.desc, q]);
    assert [] + (Names(d.inputs) + [device.desc] + [p]) == Names(d.inputs) + [device.desc, p];
    assert [] + (Names(d.outputs) + [device.desc] + [q]) == Names(d.outputs) + [device.desc, q];
  }

  lemma {:induction false} OneName(device: Device)
    ensures Names([device]) == [device.desc]
  {
  }

  // A device that is removed in that time takes another entry with it: the next
  // device, or the placeholder.
  lemma {:induction false} LateRemovalDeletes(d: Devices, id: nat, p: bytes, q: bytes)
    requires !d.firstRun && d.pending == [ListsReady] && d.combos == Combos([], [])
    ensures var i, r := Find(d.inputs, id), Run(d, [Removed(id), Handled, Handled], p, q);
            i < |d.inputs| ==>
              && r.inputs == Without(d.inputs, i)
              && r.combos.inputs == Cut(Names(r.inputs) + [p], i)
    ensures var j, r := Find(d.outputs, id), Run(d, [Removed(id), Handled, Handled], p, q);
            Find(d.inputs, id) == |d.inputs| && j < |d.outputs| ==>
              && r.outputs == Without(d.outputs, j)
              && r.combos.outputs == Cut(Names(r.outputs) + [q], j)
  {
    hide Names, Find;
    ThreeSteps(d, Removed(id), p, q);
    var e := Remove(d, id);
    assert [] + (Names(e.inputs) + [p]) == Names(e.inputs) + [p];
    assert [] + (Names(e.outputs) + [q]) == Names(e.outputs) + [q];
  }

  // A device that comes and goes in that time leaves no trace.
  lemma {:induction false} AddedAndGoneMirrors(d: Devices, device: Device, p: bytes, q: bytes)
    requires !d.firstRun && d.pending == [ListsReady] && d.combos == Combos([], [])
    requires Find(d.inputs, device.pwId) == |d.inputs|
    ensures var e := Remove(Add(d, Source, device), device.pwId);
            |e.pending| == 3 && Mirrors(HandleNext(e, p, q), p, q)
  {
    hide Names, InsertItem, RemoveItem;
    var e := Remove(Add(d, Source, device), device.pwId);
    var n, box := |d.inputs|, Names(d.inputs) + [p];
    FoundLast(d.inputs, device);
    assert Without(d.inputs + [device], n) == d.inputs;
    assert e.pending[1..] == [InputAdded(n, device.desc), InputRemoved(n)];
    assert [] + box == box && [] + (Names(d.outputs) + [q]) == Names(d.outputs) + [q];
    InsertBehind(Names(d.inputs), device.desc, [p]);
    OneTakenOut(Names(d.inputs), [device.desc], [], [p]);
    assert Names(d.inputs) + ([device.desc] + []) + [p] == Names(d.inputs) + [device.desc] + [p];
    assert Names(d.inputs) + [] + [p] == box;
    TwoHandled(Combos(box, Names(d.outputs) + [q]), InputAdded(n, device.desc), InputRemoved(n));
  }

  lemma {:induction false} TwoHandled(c: Combos, s: Signal, u: Signal)
    ensures HandleAll(c, [s, u]) == Handle(Handle(c, s), u)
  {
    hide Handle;
    assert [s, u][1..] == [u] && [u][1..] == [];
    assert HandleAll(Handle(c, s), [u]) == HandleAll(Handle(Handle(c, s), u), []);
  }

  lemma {:induction false} FoundLast(devices: seq<Device>, device: Device)
    requires Find(devices, device.pwId) == |devices|
    ensures Find(devices + [device], device.pwId) == |devices|
  {
    assert Find(devices + [device], device.pwId) >= |devices| by {
      assert forall k :: 0 <= k < |devices| ==> (devices + [device])[k] == devices[k];
    }
    assert (devices + [device])[|devices|] == device;
  }
}
