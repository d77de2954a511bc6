/**
 * The slot allocation of scratch/dsme-EGACK-tree.cc for any tree degree, number of coordinators, superframes
 * and data slots. Every coordinator but the first has `degree` children; in each superframe the children take
 * turns in the data slots, and the slot after the data slots carries the coordinator's group acknowledgement.
 */
module GtsTree {
  import opened Division
  import opened Sums

  /** The slots of a superframe that are not guaranteed slots: the beacon and the contention period. */
  const OTHER_SLOTS := 9

  const CHANNEL_OFFSETS := 16

  datatype Settings = Settings(degree: nat, coords: nat, superframes: nat, dataSlots: nat)

  /** The queue is read in every slot, and each coordinator has a channel offset of its own. */
  type Params = p: Settings | p.degree >= 1 && 1 <= p.coords <= CHANNEL_OFFSETS witness Settings(1, 1, 0, 0)

  datatype Gts = Gts(device: nat, rx: bool, channel: nat, superframe: nat, slot: nat)

  datatype Traffic = Traffic(source: nat, sink: nat, rxStart: real, txStart: real)

  /** Device number of child `i` of coordinator `c`. */
  function Child(p: Params, c: nat, i: nat): nat {
    i + p.coords + c * p.degree
  }

  function Children(p: Params, c: nat): (q: seq<nat>)
    ensures |q| == p.degree && forall i :: 0 <= i < p.degree ==> q[i] == Child(p, c, i)
  {
    seq<nat>(p.degree, i requires 0 <= i < p.degree => Child(p, c, i))
  }

  /** The queue of all children with its front moved to the back `k` times. */
  function Rotated(p: Params, c: nat, k: nat): (q: seq<nat>)
    ensures |q| == p.degree
  {
    Children(p, c)[k % p.degree..] + Children(p, c)[..k % p.degree]
  }

  // ----- the table, slot by slot -----

  function AckReceivers(p: Params, c: nat, sf: nat, queue: seq<nat>): (entries: seq<Gts>)
    ensures |entries| == |queue|
    ensures forall i :: 0 <= i < |queue| ==> entries[i] == Gts(queue[i], true, c + 1, sf, p.dataSlots)
  {
    seq(|queue|, i requires 0 <= i < |queue| => Gts(queue[i], true, c + 1, sf, p.dataSlots))
  }

  function SlotEntries(p: Params, c: nat, sf: nat, k: nat): seq<Gts>
  {
    if k == p.dataSlots then [Gts(c + 1, false, c + 1, sf, k)] + AckReceivers(p, c, sf, Rotated(p, c, k))
    else [Gts(c + 1, true, c + 1, sf, k), Gts(Child(p, c, k % p.degree), false, c + 1, sf, k)]
  }

  /** The first `n` slots of a superframe. */
  function Slots(p: Params, c: nat, sf: nat, n: nat): seq<Gts> {
    Concat(n, SlotOf(p, c, sf))
  }

  function SlotOf(p: Params, c: nat, sf: nat): nat -> seq<Gts> { (k: nat) => SlotEntries(p, c, sf, k) }

  /** The first `n` superframes of a coordinator. */
  function Superframes(p: Params, c: nat, n: nat): seq<Gts> {
    Concat(n, SuperframeOf(p, c))
  }

  function SuperframeOf(p: Params, c: nat): nat -> seq<Gts> { (sf: nat) => Slots(p, c, sf, p.dataSlots + 1) }

  /** The table for the first `n` coordinators with children. */
  function Table(p: Params, n: nat): seq<Gts> {
    Concat(n, FamilyOf(p))
  }

  function FamilyOf(p: Params): nat -> seq<Gts> { (c: nat) => Superframes(p, c, p.superframes) }

  /** When slot `k` of superframe `sf` starts, if the first slot starts at `base` and a slot lasts `slotTime`. */
  function SlotStart(p: Params, base: real, slotTime: real, sf: nat, k: nat): real {
    base + (sf * (p.dataSlots + 1 + OTHER_SLOTS) + k) as real * slotTime
  }

  // ----- the rotating queue -----

  lemma RotationStarts(p: Params, c: nat)
    ensures Rotated(p, c, 0) == Children(p, c)
  {
    DivModIs(0, p.degree, 0, 0);
  }

  /** Serving the front of the queue and moving it to the back is one more rotation. */
  lemma RotationStep(p: Params, c: nat, k: nat)
    ensures Rotated(p, c, k)[0] == Child(p, c, k % p.degree)
    ensures Rotated(p, c, k + 1) == Rotated(p, c, k)[1..] + [Rotated(p, c, k)[0]]
  {
    ModStep(k, p.degree);
  }

  lemma ChildInjective(p: Params, c: nat, i: nat, c': nat, i': nat)
    requires i < p.degree && i' < p.degree && Child(p, c, i) == Child(p, c', i')
    ensures c == c' && i == i'
  {
    DivModIs(i + c * p.degree, p.degree, c, i);
    DivModIs(i' + c' * p.degree, p.degree, c', i');
  }

  /** The queue is a permutation of the children: each child is at exactly one place. */
  lemma RotationIsPermutation(p: Params, c: nat, k: nat, i: nat) returns (at: nat)
    requires i < p.degree
    ensures at < p.degree && Rotated(p, c, k)[at] == Child(p, c, i)
    ensures forall j :: 0 <= j < p.degree && Rotated(p, c, k)[j] == Child(p, c, i) ==> j == at
  {
    var d, r := p.degree, k % p.degree;
    at := if r <= i then i - r else i + d - r;
    forall j | 0 <= j < d && Rotated(p, c, k)[j] == Child(p, c, i)
      ensures j == at
    {
      ChildInjective(p, c, if r + j < d then r + j else r + j - d, c, i);
    }
  }

  lemma RotationHasOnlyChildren(p: Params, c: nat, k: nat, at: nat) returns (i: nat)
    requires at < p.degree
    ensures i < p.degree && Rotated(p, c, k)[at] == Child(p, c, i)
  {
    var r := k % p.degree;
    i := if r + at < p.degree then r + at else r + at - p.degree;
  }

  // ----- who transmits and who receives -----

  /**
   * The schedule of the tree: in a data slot the child whose turn it is sends to its coordinator; in the slot
   * after the data slots the coordinator sends to all of its children.
   */
  ghost predicate Scheduled(p: Params, g: Gts) {
    g.channel >= 1 &&
    var c := g.channel - 1;
    if g.slot == p.dataSlots then
      if g.rx then g.device in Children(p, c) else g.device == c + 1
    else
      if g.rx then g.device == c + 1 else g.device == Child(p, c, g.slot % p.degree)
  }

  lemma RotatedMember(p: Params, c: nat, k: nat, device: nat)
    ensures device in Rotated(p, c, k) <==> device in Children(p, c)
  {
  }

  lemma AckMember(p: Params, c: nat, sf: nat, queue: seq<nat>, g: Gts)
    ensures g in AckReceivers(p, c, sf, queue) <==>
            g.rx && g.channel == c + 1 && g.superframe == sf && g.slot == p.dataSlots && g.device in queue
  {
    var entries := AckReceivers(p, c, sf, queue);
    if g.device in queue && g == Gts(g.device, true, c + 1, sf, p.dataSlots) {
      var i :| 0 <= i < |queue| && queue[i] == g.device;
      assert entries[i] == g;
    }
  }

  lemma SlotMember(p: Params, c: nat, sf: nat, k: nat, g: Gts)
    ensures g in SlotEntries(p, c, sf, k) <==>
            g.channel == c + 1 && g.superframe == sf && Scheduled(p, g) && k == g.slot
  {
    AckMember(p, c, sf, Rotated(p, c, k), g);
    RotatedMember(p, c, k, g.device);
  }

  lemma SlotsMember(p: Params, c: nat, sf: nat, n: nat, g: Gts)
    ensures g in Slots(p, c, sf, n) <==>
            g.channel == c + 1 && Scheduled(p, g) && sf == g.superframe && g.slot < n
  {
    var holds := g.channel == c + 1 && g.superframe == sf && Scheduled(p, g);
    forall k: nat
      ensures g in SlotOf(p, c, sf)(k) <==> holds && k == g.slot
    {
      SlotMember(p, c, sf, k, g);
    }
    ConcatMemberAt(n, SlotOf(p, c, sf), g, g.slot, holds);
  }

  lemma SuperframesMember(p: Params, c: nat, n: nat, g: Gts)
    ensures g in Superframes(p, c, n) <==>
            g.slot <= p.dataSlots && Scheduled(p, g) && c + 1 == g.channel && g.superframe < n
  {
    var holds := g.channel == c + 1 && g.slot <= p.dataSlots && Scheduled(p, g);
    forall sf: nat
      ensures g in SuperframeOf(p, c)(sf) <==> holds && sf == g.superframe
    {
      SlotsMember(p, c, sf, p.dataSlots + 1, g);
    }
    ConcatMemberAt(n, SuperframeOf(p, c), g, g.superframe, holds);
  }

  /** The table holds what the schedule asks for, for every coordinator, superframe and slot, and no more. */
  lemma TableMember(p: Params, n: nat, g: Gts)
    ensures g in Table(p, n) <==>
            1 <= g.channel <= n && g.superframe < p.superframes && g.slot <= p.dataSlots && Scheduled(p, g)
  {
    var holds := 1 <= g.channel && g.superframe < p.superframes && g.slot <= p.dataSlots && Scheduled(p, g);
    var key := if g.channel >= 1 then g.channel - 1 else 0;
    forall c: nat
      ensures g in FamilyOf(p)(c) <==> holds && c == key
    {
      SuperframesMember(p, c, p.superframes, g);
    }
    ConcatMemberAt(n, FamilyOf(p), g, key, holds);
  }

  // ----- the table in device numbers -----

  /** The first device number after those of all children. */
  function Devices(p: Params): nat {
    p.coords + (p.coords - 1) * p.degree
  }

  /** The children of channel `channel` are `degree` numbers from `first` on. */
  lemma ChildNumber(p: Params, channel: nat, device: nat, first: nat)
    requires channel >= 1 && first == p.coords + (channel - 1) * p.degree
    ensures device in Children(p, channel - 1) <==> first <= device < first + p.degree
  {
    if first <= device < first + p.degree {
      assert Children(p, channel - 1)[device - first] == device;
    }
  }

  /**
   * The table by numbers: in a data slot of channel c, coordinator c listens and one device sends, counted from
   * the first child of the coordinator; in the slot after them coordinator c sends and its children listen.
   */
  lemma TableInNumbers(p: Params, g: Gts, first: nat)
    requires g.channel >= 1 && first == p.coords + (g.channel - 1) * p.degree
    ensures g in Table(p, p.coords - 1) <==>
            && g.channel < p.coords && g.superframe < p.superframes && g.slot <= p.dataSlots
            && if g.slot == p.dataSlots then
                 (if g.rx then first <= g.device < first + p.degree else g.device == g.channel)
               else
                 (if g.rx then g.device == g.channel else g.device == first + g.slot % p.degree)
  {
    TableMember(p, p.coords - 1, g);
    ChildNumber(p, g.channel, g.device, first);
  }

  lemma MoreChannels(degree: nat, a: nat, b: nat)
    requires a < b
    ensures a * degree + degree <= b * degree
  {
    assert (b - a) * degree == b * degree - a * degree;
    assert (b - a) * degree == (b - a - 1) * degree + degree;
  }

  /** The number of a child tells its coordinator and its place. */
  lemma ChildPlace(p: Params, c: nat, i: nat)
    requires c + 1 < p.coords && i < p.degree
    ensures p.coords <= Child(p, c, i) < Devices(p)
    ensures (Child(p, c, i) - p.coords) / p.degree == c && (Child(p, c, i) - p.coords) % p.degree == i
  {
    MoreChannels(p.degree, c, p.coords - 1);
    DivModIs(Child(p, c, i) - p.coords, p.degree, c, i);
  }

  /** Conversely every number after the coordinators is that of a child. */
  lemma DevicePlace(p: Params, d: nat) returns (c: nat, i: nat)
    requires p.coords <= d < Devices(p)
    ensures c + 1 < p.coords && i < p.degree && d == Child(p, c, i)
    ensures c == (d - p.coords) / p.degree && i == (d - p.coords) % p.degree
  {
    c, i := (d - p.coords) / p.degree, (d - p.coords) % p.degree;
    assert d - p.coords == c * p.degree + i;
    if c >= p.coords - 1 {
      NotMore(p.degree, p.coords - 1, c);
    }
  }

  lemma NotMore(degree: nat, a: nat, b: nat)
    requires a <= b
    ensures a * degree <= b * degree
  {
  }

  lemma SenderOrFamily(p: Params, g: Gts) returns (i: nat)
    requires g in Table(p, p.coords - 1)
    ensures 1 <= g.channel < p.coords
    ensures g.device == g.channel || (i < p.degree && g.device == Child(p, g.channel - 1, i))
  {
    i := 0;
    TableMember(p, p.coords - 1, g);
    ScheduledDevice(p, g);
    if g.device != g.channel {
      i :| 0 <= i < p.degree && Children(p, g.channel - 1)[i] == g.device;
    }
  }

  /** Every device of the table exists: it is a coordinator or one of its children, and on its own channel. */
  lemma TableDevices(p: Params, g: Gts)
    requires g in Table(p, p.coords - 1)
    ensures 1 <= g.device < Devices(p)
    ensures g.channel == if g.device < p.coords then g.device else (g.device - p.coords) / p.degree + 1
  {
    var i := SenderOrFamily(p, g);
    FamilyNumbers(p, g.channel - 1, i, g.device);
  }

  lemma FamilyNumbers(p: Params, c: nat, i: nat, device: nat)
    requires c + 1 < p.coords && (device == c + 1 || (i < p.degree && device == Child(p, c, i)))
    ensures 1 <= device < Devices(p)
    ensures c + 1 == if device < p.coords then device else (device - p.coords) / p.degree + 1
  {
    if device == c + 1 {
      NotMore(p.degree, 0, p.coords - 1);
    } else {
      ChildPlace(p, c, i);
    }
  }

  lemma AckIn(p: Params, c: nat, i: nat, sf: nat)
    requires c + 1 < p.coords && i < p.degree && sf < p.superframes
    ensures Gts(Child(p, c, i), true, c + 1, sf, p.dataSlots) in Table(p, p.coords - 1)
  {
    assert Children(p, c)[i] == Child(p, c, i);
    TableMember(p, p.coords - 1, Gts(Child(p, c, i), true, c + 1, sf, p.dataSlots));
  }

  /** Every device after the coordinators is the child of exactly one, and hears its group acknowledgements. */
  lemma DeviceHasOneCoordinator(p: Params, d: nat, sf: nat, channel: nat)
    requires p.coords <= d < Devices(p) && sf < p.superframes
    ensures Gts(d, true, channel, sf, p.dataSlots) in Table(p, p.coords - 1) <==>
            channel == (d - p.coords) / p.degree + 1
  {
    var c, i := DevicePlace(p, d);
    AckIn(p, c, i, sf);
    if Gts(d, true, channel, sf, p.dataSlots) in Table(p, p.coords - 1) {
      TableDevices(p, Gts(d, true, channel, sf, p.dataSlots));
    }
  }

  lemma SendsIff(p: Params, c: nat, i: nat, sf: nat, k: nat)
    requires c + 1 < p.coords && i < p.degree && sf < p.superframes && k < p.dataSlots
    ensures Gts(Child(p, c, i), false, c + 1, sf, k) in Table(p, p.coords - 1) <==> k % p.degree == i
  {
    TableMember(p, p.coords - 1, Gts(Child(p, c, i), false, c + 1, sf, k));
  }

  /** Device d sends in data slot k exactly if k leaves the remainder of d, on the channel of its coordinator. */
  lemma DeviceSends(p: Params, d: nat, sf: nat, k: nat, channel: nat)
    requires p.coords <= d < Devices(p) && sf < p.superframes && k < p.dataSlots
    ensures Gts(d, false, channel, sf, k) in Table(p, p.coords - 1) <==>
            channel == (d - p.coords) / p.degree + 1 && k % p.degree == (d - p.coords) % p.degree
  {
    var c, i := DevicePlace(p, d);
    SendsIff(p, c, i, sf, k);
    if Gts(d, false, channel, sf, k) in Table(p, p.coords - 1) {
      TableDevices(p, Gts(d, false, channel, sf, k));
    }
  }

  /** The program's setting: three children for each of three coordinators, thirteen devices in all. */
  lemma ProgramSetting()
    ensures var p := Settings(3, 4, 4, 6);
            && Devices(p) == 13
            && Children(p, 0) == [4, 5, 6] && Children(p, 1) == [7, 8, 9] && Children(p, 2) == [10, 11, 12]
  {
  }

  /** A superframe is its data slots, the acknowledgement slot and nine others; in the program that makes sixteen. */
  lemma SuperframesApart(p: Params, base: real, slotTime: real, sf: nat, k: nat)
    ensures SlotStart(p, base, slotTime, 0, 0) == base
    ensures SlotStart(p, base, slotTime, sf, k + 1) - SlotStart(p, base, slotTime, sf, k) == slotTime
    ensures SlotStart(p, base, slotTime, sf + 1, k) - SlotStart(p, base, slotTime, sf, k) ==
            (p.dataSlots + 10) as real * slotTime
    ensures p.dataSlots == 6 ==>
              SlotStart(p, base, slotTime, sf + 1, k) - SlotStart(p, base, slotTime, sf, k) == 16.0 * slotTime
  {
    var length := p.dataSlots + 10;
    assert (sf + 1) * length + k == (sf * length + k) + length;
    AddSlots(sf * length + k, length, slotTime);
    AddSlots(sf * length + k, 1, slotTime);
  }

  lemma AddSlots(n: nat, m: nat, slotTime: real)
    ensures (n + m) as real * slotTime == n as real * slotTime + m as real * slotTime
  {
    assert (n + m) as real == n as real + m as real;
  }

  // ----- no conflicts -----

  /** The two entries ask one device for two things at the same time. */
  ghost predicate Clash(g: Gts, h: Gts) {
    g.device == h.device && g.superframe == h.superframe && g.slot == h.slot
  }

  ghost predicate ConflictFree(t: seq<Gts>) {
    forall i, j :: 0 <= i < j < |t| ==> !Clash(t[i], t[j])
  }

  lemma {:induction false} ConcatConflictFree(n: nat, f: nat -> seq<Gts>)
    requires forall k: nat :: k < n ==> ConflictFree(f(k))
    requires forall j: nat, k: nat, g, h :: j < k < n && g in f(j) && h in f(k) ==> !Clash(g, h)
    ensures ConflictFree(Concat(n, f))
  {
    if n > 0 {
      var t, u := Concat(n - 1, f), f(n - 1);
      ConcatConflictFree(n - 1, f);
      forall i, j | 0 <= i < |t| && 0 <= j < |u|
        ensures !Clash(t[i], u[j])
      {
        ConcatMember(n - 1, f, t[i]);
        var k :| 0 <= k < n - 1 && t[i] in f(k);
      }
    }
  }

  lemma RotatedDistinct(p: Params, c: nat, k: nat)
    ensures forall i, j :: 0 <= i < j < p.degree ==> Rotated(p, c, k)[i] != Rotated(p, c, k)[j]
    ensures forall i :: 0 <= i < p.degree ==> Rotated(p, c, k)[i] >= p.coords
  {
    var q := Rotated(p, c, k);
    forall i | 0 <= i < p.degree
      ensures q[i] >= p.coords && forall j :: i < j < p.degree ==> q[i] != q[j]
    {
      var child := RotationHasOnlyChildren(p, c, k, i);
      var at := RotationIsPermutation(p, c, k, child);
    }
  }

  lemma SlotConflictFree(p: Params, c: nat, sf: nat, k: nat)
    requires c + 1 < p.coords
    ensures ConflictFree(SlotEntries(p, c, sf, k))
  {
    RotatedDistinct(p, c, k);
    var t := SlotEntries(p, c, sf, k);
    if k == p.dataSlots {
      assert forall i :: 1 <= i < |t| ==> t[i].device == Rotated(p, c, k)[i - 1];
    }
  }

  lemma SlotsConflictFree(p: Params, c: nat, sf: nat, n: nat)
    requires c + 1 < p.coords
    ensures ConflictFree(Slots(p, c, sf, n))
  {
    forall k: nat
      ensures ConflictFree(SlotOf(p, c, sf)(k))
    {
      SlotConflictFree(p, c, sf, k);
    }
    forall j: nat, k: nat, g, h | j < k < n && g in SlotOf(p, c, sf)(j) && h in SlotOf(p, c, sf)(k)
      ensures !Clash(g, h)
    {
      SlotMember(p, c, sf, j, g);
      SlotMember(p, c, sf, k, h);
    }
    ConcatConflictFree(n, SlotOf(p, c, sf));
  }

  lemma SuperframesConflictFree(p: Params, c: nat, n: nat)
    requires c + 1 < p.coords
    ensures ConflictFree(Superframes(p, c, n))
  {
    forall sf: nat
      ensures ConflictFree(SuperframeOf(p, c)(sf))
    {
      SlotsConflictFree(p, c, sf, p.dataSlots + 1);
    }
    forall j: nat, k: nat, g, h | j < k < n && g in SuperframeOf(p, c)(j) && h in SuperframeOf(p, c)(k)
      ensures !Clash(g, h)
    {
      SlotsMember(p, c, j, p.dataSlots + 1, g);
      SlotsMember(p, c, k, p.dataSlots + 1, h);
    }
    ConcatConflictFree(n, SuperframeOf(p, c));
  }

  lemma ScheduledDevice(p: Params, g: Gts)
    requires Scheduled(p, g)
    ensures InFamily(p, g.channel - 1, g.device)
  {
    if g.device != g.channel && g.slot != p.dataSlots {
      assert Children(p, g.channel - 1)[g.slot % p.degree] == g.device;
    }
  }

  ghost predicate InFamily(p: Params, c: nat, device: nat) {
    device == c + 1 || device in Children(p, c)
  }

  lemma FamilyDevice(p: Params, c: nat, g: Gts)
    requires g in FamilyOf(p)(c)
    ensures InFamily(p, c, g.device)
  {
    SuperframesMember(p, c, p.superframes, g);
    ScheduledDevice(p, g);
  }

  /** Two families of a coordinator and its children have no device in common. */
  lemma DifferentFamilies(p: Params, c: nat, c': nat, device: nat)
    requires c < c' && c' + 1 < p.coords
    ensures !(InFamily(p, c, device) && InFamily(p, c', device))
  {
    if device in Children(p, c) && device in Children(p, c') {
      var i :| 0 <= i < p.degree && Children(p, c)[i] == device;
      var i' :| 0 <= i' < p.degree && Children(p, c')[i'] == device;
      ChildInjective(p, c, i, c', i');
    }
  }

  /** The table never asks a device to be in two places at once. */
  lemma TableConflictFree(p: Params)
    ensures ConflictFree(Table(p, p.coords - 1))
  {
    var n := p.coords - 1;
    forall c: nat | c < n
      ensures ConflictFree(FamilyOf(p)(c))
    {
      SuperframesConflictFree(p, c, p.superframes);
    }
    forall c: nat, c': nat, g, h | c < c' < n && g in FamilyOf(p)(c) && h in FamilyOf(p)(c')
      ensures !Clash(g, h)
    {
      FamilyDevice(p, c, g);
      FamilyDevice(p, c', h);
      DifferentFamilies(p, c, c', g.device);
    }
    ConcatConflictFree(n, FamilyOf(p));
  }

  /** Who transmits to or from coordinator `c` in slot `k`. */
  function SenderOf(p: Params, c: nat, k: nat): nat {
    if k == p.dataSlots then c + 1 else Child(p, c, k % p.degree)
  }

  lemma SenderIs(p: Params, n: nat, g: Gts)
    requires g in Table(p, n) && !g.rx
    ensures 1 <= g.channel <= n && g.superframe < p.superframes && g.slot <= p.dataSlots
    ensures g.device == SenderOf(p, g.channel - 1, g.slot)
  {
    TableMember(p, n, g);
  }

  lemma SenderIn(p: Params, n: nat, c: nat, sf: nat, k: nat)
    requires c < n && sf < p.superframes && k <= p.dataSlots
    ensures Gts(SenderOf(p, c, k), false, c + 1, sf, k) in Table(p, n)
  {
    TableMember(p, n, Gts(SenderOf(p, c, k), false, c + 1, sf, k));
  }

  lemma AtOnePlace(t: seq<Gts>, i: nat, j: nat)
    requires ConflictFree(t) && i < |t| && j < |t| && t[i] == t[j]
    ensures i == j
  {
    if i != j {
      assert Clash(t[i], t[j]);
    }
  }

  /** Exactly one entry of the table transmits on a channel in a slot. */
  lemma ExactlyOneTransmitter(p: Params, c: nat, sf: nat, k: nat) returns (at: nat)
    requires c + 1 < p.coords && sf < p.superframes && k <= p.dataSlots
    ensures var t := Table(p, p.coords - 1);
            && at < |t| && !t[at].rx && t[at].channel == c + 1 && t[at].superframe == sf && t[at].slot == k
            && forall j :: 0 <= j < |t| && !t[j].rx && t[j].channel == c + 1 && t[j].superframe == sf && t[j].slot == k
                           ==> j == at
  {
    SenderIn(p, p.coords - 1, c, sf, k);
    TableConflictFree(p);
    at := OnlyPlace(p, p.coords - 1, Table(p, p.coords - 1), Gts(SenderOf(p, c, k), false, c + 1, sf, k));
  }

  /** The place of a transmitting entry, and that no other entry for its channel and slot transmits. */
  lemma OnlyPlace(p: Params, n: nat, t: seq<Gts>, g: Gts) returns (at: nat)
    requires t == Table(p, n) && ConflictFree(t) && g in t && !g.rx
    ensures at < |t| && t[at] == g
    ensures forall j :: 0 <= j < |t| && !t[j].rx && t[j].channel == g.channel && t[j].superframe == g.superframe &&
                        t[j].slot == g.slot
                        ==> j == at
  {
    at :| 0 <= at < |t| && t[at] == g;
    SenderIs(p, n, g);
    forall j | 0 <= j < |t| && !t[j].rx && t[j].channel == g.channel && t[j].superframe == g.superframe &&
               t[j].slot == g.slot
      ensures j == at
    {
      SenderIs(p, n, t[j]);
      AtOnePlace(t, at, j);
    }
  }

  // ----- fairness -----

  /** The slots of superframe `sf` in which the table lets `device` transmit. */
  ghost function SendingSlots(p: Params, device: nat, sf: nat): set<nat> {
    set k | 0 <= k <= p.dataSlots && Transmits(p, device, sf, k)
  }

  ghost predicate Transmits(p: Params, device: nat, sf: nat, k: nat) {
    exists g :: g in Table(p, p.coords - 1) && g.device == device && !g.rx && g.superframe == sf && g.slot == k
  }

  /** Of all the senders of a slot, a child is only its own coordinator's, and only when it is its turn. */
  lemma ChildSendsInTurn(p: Params, c: nat, i: nat, c': nat, k: nat)
    requires i < p.degree && c' + 1 < p.coords && SenderOf(p, c', k) == Child(p, c, i)
    ensures k != p.dataSlots && k % p.degree == i
  {
    if k != p.dataSlots {
      ChildInjective(p, c, i, c', k % p.degree);
    } else {
      ChildNumbers(p, c, i);
    }
  }

  lemma ChildNumbers(p: Params, c: nat, i: nat)
    ensures Child(p, c, i) >= p.coords
  {
  }

  lemma TransmitsOnlyInTurn(p: Params, c: nat, i: nat, g: Gts)
    requires c + 1 < p.coords && i < p.degree && g in Table(p, p.coords - 1)
    requires !g.rx && g.device == Child(p, c, i)
    ensures g.slot < p.dataSlots && g.slot % p.degree == i
  {
    SenderIs(p, p.coords - 1, g);
    ChildSendsInTurn(p, c, i, g.channel - 1, g.slot);
  }

  lemma TransmitsInItsTurn(p: Params, c: nat, sf: nat, k: nat)
    requires c + 1 < p.coords && sf < p.superframes && k < p.dataSlots
    ensures Transmits(p, Child(p, c, k % p.degree), sf, k)
  {
    SenderIn(p, p.coords - 1, c, sf, k);
    assert Transmits(p, SenderOf(p, c, k), sf, k);
  }

  /** A child transmits exactly in the data slots where it is at the front of the queue. */
  lemma TransmitsInTurn(p: Params, c: nat, i: nat, sf: nat, k: nat)
    requires c + 1 < p.coords && i < p.degree && sf < p.superframes
    ensures Transmits(p, Child(p, c, i), sf, k) <==> k < p.dataSlots && k % p.degree == i
  {
    var device := Child(p, c, i);
    if Transmits(p, device, sf, k) {
      var g :| g in Table(p, p.coords - 1) && g.device == device && !g.rx && g.superframe == sf && g.slot == k;
      TransmitsOnlyInTurn(p, c, i, g);
    }
    if k < p.dataSlots && k % p.degree == i {
      TransmitsInItsTurn(p, c, sf, k);
    }
  }

  lemma {:induction false} TurnsCounted(n: nat, d: nat, i: nat)
    requires i < d
    ensures |set k | 0 <= k < n && k % d == i| == n / d + if i < n % d then 1 else 0
  {
    if n == 0 {
      DivModIs(0, d, 0, 0);
      assert (set k | 0 <= k < 0 && k % d == i) == {};
    } else {
      TurnsCounted(n - 1, d, i);
      ModStep(n - 1, d);
      var before, after := set k | 0 <= k < n - 1 && k % d == i, set k | 0 <= k < n && k % d == i;
      assert after == if (n - 1) % d == i then before + {n - 1} else before;
    }
  }

  lemma SendingSlotsCounted(p: Params, c: nat, i: nat, sf: nat)
    requires c + 1 < p.coords && i < p.degree && sf < p.superframes
    ensures |SendingSlots(p, Child(p, c, i), sf)| ==
            p.dataSlots / p.degree + if i < p.dataSlots % p.degree then 1 else 0
  {
    forall k | 0 <= k <= p.dataSlots
      ensures Transmits(p, Child(p, c, i), sf, k) <==> k < p.dataSlots && k % p.degree == i
    {
      TransmitsInTurn(p, c, i, sf, k);
    }
    assert SendingSlots(p, Child(p, c, i), sf) == set k | 0 <= k < p.dataSlots && k % p.degree == i;
    TurnsCounted(p.dataSlots, p.degree, i);
  }

  /** Within one superframe the children of a coordinator get the same number of slots, give or take one. */
  lemma FairWithinSuperframe(p: Params, c: nat, sf: nat, i: nat, j: nat)
    requires c + 1 < p.coords && sf < p.superframes && i < p.degree && j < p.degree
    ensures |SendingSlots(p, Child(p, c, i), sf)| <= |SendingSlots(p, Child(p, c, j), sf)| + 1
  {
    SendingSlotsCounted(p, c, i, sf);
    SendingSlotsCounted(p, c, j, sf);
  }

  ghost function SlotCount(p: Params, device: nat): nat -> nat { (sf: nat) => |SendingSlots(p, device, sf)| }

  /** How many slots a device gets to transmit in, over all superframes. */
  ghost function TotalSlots(p: Params, device: nat): nat {
    SumUpTo(p.superframes, SlotCount(p, device))
  }

  ghost predicate FairOverall(p: Params, c: nat) {
    forall i: nat, j: nat :: i < p.degree && j < p.degree ==>
      TotalSlots(p, Child(p, c, i)) <= TotalSlots(p, Child(p, c, j)) + 1
  }

  lemma TotalOfShares(p: Params, device: nat, share: nat)
    requires forall sf: nat :: sf < p.superframes ==> |SendingSlots(p, device, sf)| == share
    ensures TotalSlots(p, device) == p.superframes * share
  {
    SumUpToConstant(p.superframes, SlotCount(p, device), share);
  }

  lemma TotalSlotsCounted(p: Params, c: nat, i: nat, q: nat, r: nat, share: nat)
    requires c + 1 < p.coords && i < p.degree && q == p.dataSlots / p.degree && r == p.dataSlots % p.degree
    requires share == q + if i < r then 1 else 0
    ensures TotalSlots(p, Child(p, c, i)) == p.superframes * share
  {
    forall sf: nat | sf < p.superframes
      ensures |SendingSlots(p, Child(p, c, i), sf)| == share
    {
      SendingSlotsCounted(p, c, i, sf);
    }
    TotalOfShares(p, Child(p, c, i), share);
  }

  /** With `q` turns for everyone and one more for the first `r` children, the totals of two children. */
  lemma SharesDiffer(s: nat, q: nat, extra: nat)
    requires extra <= 1
    ensures s * (q + extra) == s * q + if extra == 1 then s else 0
  {
    if extra == 1 {
      assert s * (q + 1) == s * q + s;
    }
  }

  /**
   * Because every superframe starts again with the first child, the allocation as a whole is fair only when
   * the data slots divide evenly among the children, or when there is at most one superframe.
   */
  lemma FairOverallIff(p: Params, c: nat)
    requires c + 1 < p.coords
    ensures FairOverall(p, c) <==> p.superframes <= 1 || p.dataSlots % p.degree == 0
  {
    var q, r, s := p.dataSlots / p.degree, p.dataSlots % p.degree, p.superframes;
    var base := s * q;
    forall i: nat | i < p.degree
      ensures TotalSlots(p, Child(p, c, i)) == base + if i < r then s else 0
    {
      var extra := if i < r then 1 else 0;
      TotalSlotsCounted(p, c, i, q, r, q + extra);
      SharesDiffer(s, q, extra);
    }
    if s > 1 && r != 0 {
      assert TotalSlots(p, Child(p, c, 0)) == base + s;
      assert TotalSlots(p, Child(p, c, p.degree - 1)) == base;
    }
  }

  /** With the program's four superframes and six data slots, four children instead of three are not served alike. */
  lemma FourChildrenUnfair()
    ensures var p := Settings(4, 4, 4, 6);
            TotalSlots(p, Child(p, 0, 0)) == 8 && TotalSlots(p, Child(p, 0, 3)) == 4 && !FairOverall(p, 0)
  {
    var p := Settings(4, 4, 4, 6);
    TotalSlotsCounted(p, 0, 0, 1, 2, 2);
    TotalSlotsCounted(p, 0, 3, 1, 2, 1);
  }

  // ----- the program -----

  /** The std::queue of device numbers. */
  class IntQueue {
    var contents: seq<nat>

    constructor ()
      ensures contents == []
    {
      contents := [];
    }

    method Push(x: nat)
      modifies this
      ensures contents == old(contents) + [x]
    {
      contents := contents + [x];
    }

    method Front() returns (x: nat)
      requires contents != []
      ensures x == contents[0]
    {
      x := contents[0];
    }

    method Pop()
      requires contents != []
      modifies this
      ensures contents == old(contents)[1..]
    {
      contents := contents[1..];
    }
  }

  method GenerateRoundRobinQueue(p: Params, queue: IntQueue, coordIdx: nat)
    modifies queue
    ensures queue.contents == old(queue.contents) + Children(p, coordIdx)
  {
    for deviceIdx := 0 to p.degree
      invariant queue.contents == old(queue.contents) + Children(p, coordIdx)[..deviceIdx]
    {
      queue.Push(deviceIdx + p.coords + coordIdx * p.degree);
    }
  }

  method ClearRoundRobinQueue(queue: IntQueue)
    modifies queue
    ensures queue.contents == []
  {
    while queue.contents != []
      decreases |queue.contents|
    {
      queue.Pop();
    }
  }

  function SlotTraffic(p: Params, rxBase: real, txBase: real, slotTime: real, c: nat, sf: nat, k: nat): Traffic {
    Traffic(Child(p, c, k % p.degree), c + 1,
            SlotStart(p, rxBase, slotTime, sf, k), SlotStart(p, txBase, slotTime, sf, k))
  }

  /** The traffic of a data slot: the child whose turn it is sends to its coordinator from the slot's start. */
  function TrafficOf(p: Params, c: nat, rxBase: real, txBase: real, slotTime: real, sf: nat): nat -> seq<Traffic> {
    (k: nat) => [SlotTraffic(p, rxBase, txBase, slotTime, c, sf, k)]
  }

  function SuperframeTraffic(p: Params, c: nat, rxBase: real, txBase: real, slotTime: real): nat -> seq<Traffic> {
    (sf: nat) => Concat(p.dataSlots, TrafficOf(p, c, rxBase, txBase, slotTime, sf))
  }

  function FamilyTraffic(p: Params, rxBase: real, txBase: real, slotTime: real): nat -> seq<Traffic> {
    (c: nat) => Concat(p.superframes, SuperframeTraffic(p, c, rxBase, txBase, slotTime))
  }

  function TrafficList(p: Params, rxBase: real, txBase: real, slotTime: real): seq<Traffic> {
    Concat(p.coords - 1, FamilyTraffic(p, rxBase, txBase, slotTime))
  }

  /** The traffic of a data slot by numbers. */
  lemma TrafficNumbers(p: Params, rxBase: real, txBase: real, slotTime: real, c: nat, sf: nat, k: nat, at: nat)
    requires at == sf * (p.dataSlots + 10) + k
    ensures SlotTraffic(p, rxBase, txBase, slotTime, c, sf, k) ==
            Traffic(p.coords + c * p.degree + k % p.degree, c + 1,
                    rxBase + at as real * slotTime, txBase + at as real * slotTime)
  {
  }

  lemma DataSlotInTable(p: Params, c: nat, sf: nat, k: nat)
    requires c + 1 < p.coords && sf < p.superframes && k < p.dataSlots
    ensures Gts(Child(p, c, k % p.degree), false, c + 1, sf, k) in Table(p, p.coords - 1)
    ensures Gts(c + 1, true, c + 1, sf, k) in Table(p, p.coords - 1)
  {
    SenderIn(p, p.coords - 1, c, sf, k);
    ReceiverIn(p, p.coords - 1, c, sf, k);
  }

  lemma ReceiverIn(p: Params, n: nat, c: nat, sf: nat, k: nat)
    requires c < n && sf < p.superframes && k < p.dataSlots
    ensures Gts(c + 1, true, c + 1, sf, k) in Table(p, n)
  {
    TableMember(p, n, Gts(c + 1, true, c + 1, sf, k));
  }

  lemma TrafficOrigin(p: Params, rxBase: real, txBase: real, slotTime: real, x: Traffic)
      returns (c: nat, sf: nat, k: nat)
    requires x in TrafficList(p, rxBase, txBase, slotTime)
    ensures c + 1 < p.coords && sf < p.superframes && k < p.dataSlots
    ensures x in TrafficOf(p, c, rxBase, txBase, slotTime, sf)(k)
  {
    ConcatMember(p.coords - 1, FamilyTraffic(p, rxBase, txBase, slotTime), x);
    c :| 0 <= c < p.coords - 1 && x in FamilyTraffic(p, rxBase, txBase, slotTime)(c);
    ConcatMember(p.superframes, SuperframeTraffic(p, c, rxBase, txBase, slotTime), x);
    sf :| 0 <= sf < p.superframes && x in SuperframeTraffic(p, c, rxBase, txBase, slotTime)(sf);
    ConcatMember(p.dataSlots, TrafficOf(p, c, rxBase, txBase, slotTime, sf), x);
    k :| 0 <= k < p.dataSlots && x in TrafficOf(p, c, rxBase, txBase, slotTime, sf)(k);
  }

  /** Traffic is generated for a data slot of the table, at its start, from its sender to its receiver. */
  lemma TrafficFollowsTable(p: Params, rxBase: real, txBase: real, slotTime: real, x: Traffic)
      returns (sf: nat, k: nat)
    requires x in TrafficList(p, rxBase, txBase, slotTime)
    ensures sf < p.superframes && k < p.dataSlots
    ensures Gts(x.source, false, x.sink, sf, k) in Table(p, p.coords - 1)
    ensures Gts(x.sink, true, x.sink, sf, k) in Table(p, p.coords - 1)
    ensures x.rxStart == SlotStart(p, rxBase, slotTime, sf, k) && x.txStart == SlotStart(p, txBase, slotTime, sf, k)
  {
    var c;
    c, sf, k := TrafficOrigin(p, rxBase, txBase, slotTime, x);
    DataSlotInTable(p, c, sf, k);
  }

  lemma FamilyTrafficLength(p: Params, rxBase: real, txBase: real, slotTime: real, c: nat)
    ensures |FamilyTraffic(p, rxBase, txBase, slotTime)(c)| == p.superframes * p.dataSlots
  {
    var superframe := SuperframeTraffic(p, c, rxBase, txBase, slotTime);
    forall m: nat | m < p.superframes
      ensures |superframe(m)| == p.dataSlots
    {
      ConcatLength(p.dataSlots, TrafficOf(p, c, rxBase, txBase, slotTime, m), 1);
    }
    ConcatLength(p.superframes, superframe, p.dataSlots);
  }

  lemma TrafficInFamily(p: Params, rxBase: real, txBase: real, slotTime: real, c: nat, sf: nat, k: nat,
                        length: nat, i: nat)
    requires sf < p.superframes && k < p.dataSlots
    requires length == p.superframes * p.dataSlots && i == sf * p.dataSlots + k
    ensures var traffic := FamilyTraffic(p, rxBase, txBase, slotTime)(c);
            i < |traffic| == length && traffic[i] == SlotTraffic(p, rxBase, txBase, slotTime, c, sf, k)
  {
    var superframe := SuperframeTraffic(p, c, rxBase, txBase, slotTime);
    forall m: nat | m < p.superframes
      ensures |superframe(m)| == p.dataSlots
    {
      ConcatLength(p.dataSlots, TrafficOf(p, c, rxBase, txBase, slotTime, m), 1);
    }
    ConcatAt(p.dataSlots, TrafficOf(p, c, rxBase, txBase, slotTime, sf), 1, k, 0);
    ConcatAt(p.superframes, superframe, p.dataSlots, sf, k);
  }

  lemma ItemInFamilies(p: Params, rxBase: real, txBase: real, slotTime: real, c: nat, length: nat, i: nat, at: nat)
    requires c + 1 < p.coords && i < length == p.superframes * p.dataSlots && at == c * length + i
    ensures at < |TrafficList(p, rxBase, txBase, slotTime)| == (p.coords - 1) * length
    ensures i < |FamilyTraffic(p, rxBase, txBase, slotTime)(c)|
    ensures TrafficList(p, rxBase, txBase, slotTime)[at] == FamilyTraffic(p, rxBase, txBase, slotTime)(c)[i]
  {
    var family := FamilyTraffic(p, rxBase, txBase, slotTime);
    forall m: nat | m + 1 < p.coords
      ensures |family(m)| == length
    {
      FamilyTrafficLength(p, rxBase, txBase, slotTime, m);
    }
    ConcatAt(p.coords - 1, family, length, c, i);
  }

  /**
   * Every data slot has exactly one item of traffic: with `length` items for each coordinator, the list holds
   * the item of data slot `k` of superframe `sf` of coordinator `c` at position `at`, and no others.
   */
  lemma TrafficOfSlot(p: Params, rxBase: real, txBase: real, slotTime: real, c: nat, sf: nat, k: nat,
                      length: nat, i: nat, at: nat)
    requires c + 1 < p.coords && sf < p.superframes && k < p.dataSlots
    requires length == p.superframes * p.dataSlots && i == sf * p.dataSlots + k && at == c * length + i
    ensures at < |TrafficList(p, rxBase, txBase, slotTime)| == (p.coords - 1) * length
    ensures TrafficList(p, rxBase, txBase, slotTime)[at] == SlotTraffic(p, rxBase, txBase, slotTime, c, sf, k)
  {
    TrafficInFamily(p, rxBase, txBase, slotTime, c, sf, k, length, i);
    ItemInFamilies(p, rxBase, txBase, slotTime, c, length, i, at);
  }

  lemma TrafficInSuperframe(p: Params, rxBase: real, txBase: real, slotTime: real, c: nat, sf: nat, k: nat)
    requires k < p.dataSlots
    ensures SlotTraffic(p, rxBase, txBase, slotTime, c, sf, k) in SuperframeTraffic(p, c, rxBase, txBase, slotTime)(sf)
  {
    var x := SlotTraffic(p, rxBase, txBase, slotTime, c, sf, k);
    assert x in TrafficOf(p, c, rxBase, txBase, slotTime, sf)(k);
    ConcatMember(p.dataSlots, TrafficOf(p, c, rxBase, txBase, slotTime, sf), x);
  }

  lemma TrafficFor(p: Params, rxBase: real, txBase: real, slotTime: real, c: nat, sf: nat, k: nat)
    requires c + 1 < p.coords && sf < p.superframes && k < p.dataSlots
    ensures SlotTraffic(p, rxBase, txBase, slotTime, c, sf, k) in TrafficList(p, rxBase, txBase, slotTime)
  {
    var x := SlotTraffic(p, rxBase, txBase, slotTime, c, sf, k);
    TrafficInSuperframe(p, rxBase, txBase, slotTime, c, sf, k);
    ConcatMember(p.superframes, SuperframeTraffic(p, c, rxBase, txBase, slotTime), x);
    assert x in FamilyTraffic(p, rxBase, txBase, slotTime)(c);
    ConcatMember(p.coords - 1, FamilyTraffic(p, rxBase, txBase, slotTime), x);
  }

  /** Whoever transmits in a data slot of the table has traffic to send to that slot's receiver when it starts. */
  lemma TableHasTraffic(p: Params, rxBase: real, txBase: real, slotTime: real, g: Gts)
    requires g in Table(p, p.coords - 1) && !g.rx && g.slot < p.dataSlots
    ensures Traffic(g.device, g.channel, SlotStart(p, rxBase, slotTime, g.superframe, g.slot),
                    SlotStart(p, txBase, slotTime, g.superframe, g.slot)) in TrafficList(p, rxBase, txBase, slotTime)
  {
    SenderIs(p, p.coords - 1, g);
    TrafficFor(p, rxBase, txBase, slotTime, g.channel - 1, g.superframe, g.slot);
  }

  /** The acknowledgement slot: the coordinator transmits, and the queue is emptied into receivers. */
  method AllocateAck(p: Params, c: nat, sf: nat, queue: IntQueue) returns (entries: seq<Gts>)
    requires queue.contents == Rotated(p, c, p.dataSlots)
    modifies queue
    ensures entries == SlotEntries(p, c, sf, p.dataSlots) && queue.contents == []
  {
    entries := [Gts(c + 1, false, c + 1, sf, p.dataSlots)];
    ghost var all := queue.contents;
    var queueSize := |queue.contents|;
    for i := 0 to queueSize
      invariant queue.contents == all[i..]
      invariant entries == [Gts(c + 1, false, c + 1, sf, p.dataSlots)] + AckReceivers(p, c, sf, all)[..i]
    {
      var child := queue.Front();
      entries := entries + [Gts(child, true, c + 1, sf, p.dataSlots)];
      queue.Pop();
    }
    assert AckReceivers(p, c, sf, all)[..queueSize] == AckReceivers(p, c, sf, all);
  }

  /** A data slot: the front child sends to the coordinator and goes to the back of the queue. */
  method AllocateData(p: Params, c: nat, sf: nat, k: nat, queue: IntQueue) returns (entries: seq<Gts>, child: nat)
    requires k < p.dataSlots && queue.contents == Rotated(p, c, k)
    modifies queue
    ensures entries == SlotEntries(p, c, sf, k) && child == Child(p, c, k % p.degree)
    ensures queue.contents == Rotated(p, c, k + 1)
  {
    RotationStep(p, c, k);
    child := queue.Front();
    entries := [Gts(c + 1, true, c + 1, sf, k), Gts(child, false, c + 1, sf, k)];
    queue.Push(child);
    queue.Pop();
  }

  lemma NextSlotStart(p: Params, base: real, slotTime: real, sf: nat, k: nat)
    ensures SlotStart(p, base, slotTime, sf, k + 1) == SlotStart(p, base, slotTime, sf, k) + slotTime
    ensures k == p.dataSlots + 1 ==>
              SlotStart(p, base, slotTime, sf + 1, 0) ==
              SlotStart(p, base, slotTime, sf, k) + OTHER_SLOTS as real * slotTime
  {
    var length := p.dataSlots + 1 + OTHER_SLOTS;
    var at := sf * length + k;
    assert (at + 1) as real * slotTime == at as real * slotTime + slotTime;
    assert (sf + 1) * length == sf * length + length;
    if k == p.dataSlots + 1 {
      assert (sf + 1) * length + 0 == at + OTHER_SLOTS;
      assert (at + OTHER_SLOTS) as real * slotTime == at as real * slotTime + OTHER_SLOTS as real * slotTime;
    }
  }

  /** The queue before slot `k` of a superframe; the acknowledgement slot drains it. */
  function QueueAt(p: Params, c: nat, k: nat): seq<nat> {
    if k <= p.dataSlots then Rotated(p, c, k) else []
  }

  function TrafficUpTo(p: Params, c: nat, rxBase: real, txBase: real, slotTime: real, sf: nat, k: nat): seq<Traffic> {
    Concat(if k <= p.dataSlots then k else p.dataSlots, TrafficOf(p, c, rxBase, txBase, slotTime, sf))
  }

  method AllocateSlot(p: Params, c: nat, sf: nat, k: nat, queue: IntQueue, rxStart: real, txStart: real,
                      ghost rxBase: real, ghost txBase: real, slotTime: real)
      returns (entries: seq<Gts>, traffic: seq<Traffic>, rxNext: real, txNext: real)
    requires k <= p.dataSlots && queue.contents == QueueAt(p, c, k)
    requires rxStart == SlotStart(p, rxBase, slotTime, sf, k) && txStart == SlotStart(p, txBase, slotTime, sf, k)
    modifies queue
    ensures queue.contents == QueueAt(p, c, k + 1) && entries == SlotEntries(p, c, sf, k)
    ensures TrafficUpTo(p, c, rxBase, txBase, slotTime, sf, k + 1) ==
            TrafficUpTo(p, c, rxBase, txBase, slotTime, sf, k) + traffic
    ensures rxNext == SlotStart(p, rxBase, slotTime, sf, k + 1) && txNext == SlotStart(p, txBase, slotTime, sf, k + 1)
  {
    if k == p.dataSlots {
      entries := AllocateAck(p, c, sf, queue);
      traffic := [];
    } else {
      var child;
      entries, child := AllocateData(p, c, sf, k, queue);
      traffic := [Traffic(child, c + 1, rxStart, txStart)];
      assert traffic == TrafficOf(p, c, rxBase, txBase, slotTime, sf)(k);
    }
    NextSlotStart(p, rxBase, slotTime, sf, k);
    NextSlotStart(p, txBase, slotTime, sf, k);
    rxNext, txNext := rxStart + slotTime, txStart + slotTime;
  }

  /** The slots of one superframe; the start times run on from slot to slot. */
  method AllocateSlots(p: Params, c: nat, sf: nat, queue: IntQueue, rxFirst: real, txFirst: real,
                       ghost rxBase: real, ghost txBase: real, slotTime: real)
      returns (entries: seq<Gts>, traffic: seq<Traffic>, rxStart: real, txStart: real)
    requires queue.contents == QueueAt(p, c, 0)
    requires rxFirst == SlotStart(p, rxBase, slotTime, sf, 0) && txFirst == SlotStart(p, txBase, slotTime, sf, 0)
    modifies queue
    ensures queue.contents == QueueAt(p, c, p.dataSlots + 1)
    ensures entries == Slots(p, c, sf, p.dataSlots + 1)
    ensures traffic == TrafficUpTo(p, c, rxBase, txBase, slotTime, sf, p.dataSlots + 1)
    ensures rxStart == SlotStart(p, rxBase, slotTime, sf, p.dataSlots + 1)
    ensures txStart == SlotStart(p, txBase, slotTime, sf, p.dataSlots + 1)
  {
    entries, traffic, rxStart, txStart := [], [], rxFirst, txFirst;
    for slotIdx := 0 to p.dataSlots + 1
      invariant queue.contents == QueueAt(p, c, slotIdx)
      invariant entries == Slots(p, c, sf, slotIdx)
      invariant traffic == TrafficUpTo(p, c, rxBase, txBase, slotTime, sf, slotIdx)
      invariant rxStart == SlotStart(p, rxBase, slotTime, sf, slotIdx)
      invariant txStart == SlotStart(p, txBase, slotTime, sf, slotIdx)
    {
      var slotEntries, slotTraffic;
      slotEntries, slotTraffic, rxStart, txStart :=
        AllocateSlot(p, c, sf, slotIdx, queue, rxStart, txStart, rxBase, txBase, slotTime);
      entries, traffic := entries + slotEntries, traffic + slotTraffic;
    }
  }

  /** One superframe, from a freshly filled queue to an empty one; then the times skip to the next superframe. */
  method AllocateSuperframe(p: Params, c: nat, sf: nat, queue: IntQueue, rxFirst: real, txFirst: real,
                            ghost rxBase: real, ghost txBase: real, slotTime: real)
      returns (entries: seq<Gts>, traffic: seq<Traffic>, rxStart: real, txStart: real)
    requires queue.contents == []
    requires rxFirst == SlotStart(p, rxBase, slotTime, sf, 0) && txFirst == SlotStart(p, txBase, slotTime, sf, 0)
    modifies queue
    ensures queue.contents == [] && entries == SuperframeOf(p, c)(sf)
    ensures traffic == SuperframeTraffic(p, c, rxBase, txBase, slotTime)(sf)
    ensures rxStart == SlotStart(p, rxBase, slotTime, sf + 1, 0)
    ensures txStart == SlotStart(p, txBase, slotTime, sf + 1, 0)
  {
    GenerateRoundRobinQueue(p, queue, c);
    RotationStarts(p, c);
    entries, traffic, rxStart, txStart :=
      AllocateSlots(p, c, sf, queue, rxFirst, txFirst, rxBase, txBase, slotTime);
    NextSlotStart(p, rxBase, slotTime, sf, p.dataSlots + 1);
    NextSlotStart(p, txBase, slotTime, sf, p.dataSlots + 1);
    rxStart := rxStart + OTHER_SLOTS as real * slotTime;
    txStart := txStart + OTHER_SLOTS as real * slotTime;
  }

  /** All superframes of one coordinator. */
  method AllocateFamily(p: Params, c: nat, queue: IntQueue, rxBase: real, txBase: real, slotTime: real)
      returns (entries: seq<Gts>, traffic: seq<Traffic>)
    requires queue.contents == []
    modifies queue
    ensures queue.contents == [] && entries == FamilyOf(p)(c)
    ensures traffic == FamilyTraffic(p, rxBase, txBase, slotTime)(c)
  {
    var rxStart, txStart := rxBase, txBase;
    entries, traffic := [], [];
    for sf := 0 to p.superframes
      invariant queue.contents == []
      invariant entries == Superframes(p, c, sf)
      invariant traffic == Concat(sf, SuperframeTraffic(p, c, rxBase, txBase, slotTime))
      invariant rxStart == SlotStart(p, rxBase, slotTime, sf, 0)
      invariant txStart == SlotStart(p, txBase, slotTime, sf, 0)
    {
      var more, sent;
      more, sent, rxStart, txStart := AllocateSuperframe(p, c, sf, queue, rxStart, txStart, rxBase, txBase, slotTime);
      entries, traffic := entries + more, traffic + sent;
    }
    ClearRoundRobinQueue(queue);
  }

  /** The allocation in main: the table of slots, and the traffic with its start times in closed form. */
  method Allocate(p: Params, rxBase: real, txBase: real, slotTime: real)
      returns (table: seq<Gts>, traffic: seq<Traffic>)
    ensures table == Table(p, p.coords - 1)
    ensures traffic == TrafficList(p, rxBase, txBase, slotTime)
  {
    table, traffic := [], [];
    var queue := new IntQueue();
    for c := 0 to p.coords - 1
      invariant fresh(queue) && queue.contents == []
      invariant table == Table(p, c)
      invariant traffic == Concat(c, FamilyTraffic(p, rxBase, txBase, slotTime))
    {
      var entries, sent := AllocateFamily(p, c, queue, rxBase, txBase, slotTime);
      table, traffic := table + entries, traffic + sent;
    }
  }
}
