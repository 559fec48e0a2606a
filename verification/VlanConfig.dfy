/** The in-VM VLAN editor: each call edits config.xml with a script, then reads the file again
    to verify. Whether the rewritten file replaces the old one, and whether the guest agent runs
    the commands, is up to the environment. */
module VlanConfig {
  import opened Text

  datatype Vlan = Vlan(parent: string, tag: int, vlanif: string, descr: string)

  datatype Iface = Iface(name: string, device: string, enable: bool, ipaddr: string, subnet: int, descr: string)

  /** A loadable file; each section may be absent. */
  datatype Doc = Doc(vlans: Option<seq<Vlan>>, interfaces: Option<seq<Iface>>)

  datatype Result = Ok | Raised

  // ---------------------------------------------------------------- first matches

  function First<T>(s: seq<T>, p: T -> bool): (i: nat)
    ensures i <= |s| && (i < |s| ==> p(s[i]))
    ensures forall j :: 0 <= j < i ==> !p(s[j])
  {
    if s == [] || p(s[0]) then 0 else 1 + First(s[1..], p)
  }

  lemma FirstIs<T>(s: seq<T>, p: T -> bool, i: nat)
    requires i <= |s| && (i < |s| ==> p(s[i]))
    requires forall j :: 0 <= j < i ==> !p(s[j])
    ensures First(s, p) == i
  {
  }

  /** The list without its first element that matches. */
  function Cut<T>(s: seq<T>, p: T -> bool): seq<T> {
    var i := First(s, p);
    if i < |s| then s[..i] + s[i + 1..] else s
  }

  /** The first element that matches replaced, or the element added at the end. */
  function Put<T>(s: seq<T>, p: T -> bool, x: T): seq<T> {
    var i := First(s, p);
    if i < |s| then s[i := x] else s + [x]
  }

  lemma CutOfFresh<T>(s: seq<T>, p: T -> bool, x: T)
    requires (forall y :: y in s ==> !p(y)) && p(x)
    ensures Cut(s + [x], p) == s
  {
    FirstIs(s + [x], p, |s|);
  }

  function HasKey(parent: string, tag: int): Vlan -> bool {
    (v: Vlan) => v.parent == parent && v.tag == tag
  }

  /** The filter of `remove_vlan`: an empty parent matches every parent. */
  function Matches(parent: string, tag: int): Vlan -> bool {
    (v: Vlan) => v.tag == tag && (parent == "" || v.parent == parent)
  }

  function Named(name: string): Iface -> bool { (x: Iface) => x.name == name }
  function OnDevice(device: string): Iface -> bool { (x: Iface) => x.device == device }

  function Vlans(d: Doc): seq<Vlan> { if d.vlans.Some? then d.vlans.value else [] }
  function Interfaces(d: Doc): seq<Iface> { if d.interfaces.Some? then d.interfaces.value else [] }

  // ---------------------------------------------------------------- the edits

  function WithVlan(d: Doc, v: Vlan): Doc {
    d.(vlans := Some(Put(Vlans(d), HasKey(v.parent, v.tag), v)))
  }

  function WithIface(d: Doc, x: Iface): Doc {
    if d.interfaces.None? then d else d.(interfaces := Some(Put(d.interfaces.value, Named(x.name), x)))
  }

  function Without(d: Doc, parent: string, tag: int): Doc {
    var i := First(Vlans(d), Matches(parent, tag));
    if i == |Vlans(d)| then d
    else
      var device := Vlans(d)[i].vlanif;
      Doc(Some(Cut(Vlans(d), Matches(parent, tag))),
          if d.interfaces.None? then None else Some(Cut(d.interfaces.value, OnDevice(device))))
  }

  /** The running interface a removal tears down: only one whose interface entry it found. */
  function Torn(d: Doc, parent: string, tag: int): Option<string> {
    var i := First(Vlans(d), Matches(parent, tag));
    if i == |Vlans(d)| then None
    else
      var device := Vlans(d)[i].vlanif;
      if First(Interfaces(d), OnDevice(device)) < |Interfaces(d)| then Some(device) else None
  }

  predicate VlanListed(d: Option<Doc>, parent: string, tag: int, vlanif: string) {
    d.Some? && exists v :: v in Vlans(d.value) && v.parent == parent && v.tag == tag && v.vlanif == vlanif
  }

  predicate IfaceListed(d: Option<Doc>, name: string, device: string, ip: string) {
    && d.Some?
    && var s := Interfaces(d.value);
       var i := First(s, Named(name));
       i < |s| && s[i].device == device && s[i].ipaddr == ip
  }

  ghost predicate Has(entries: seq<Vlan>, parent: string, tag: int, vlanif: string) {
    exists i, descr :: 0 <= i < |entries| && entries[i] == Vlan(parent, tag, vlanif, descr)
  }

  /** The entry of that name, the first if there are several, has the device and the address. */
  ghost predicate ReadBack(entries: seq<Iface>, x: Iface) {
    exists i :: 0 <= i < |entries| && entries[i].name == x.name && entries[i].device == x.device
                && entries[i].ipaddr == x.ipaddr && forall j :: 0 <= j < i ==> entries[j].name != x.name
  }

  lemma ListedIsReadBack(d: Option<Doc>, x: Iface)
    ensures IfaceListed(d, x.name, x.device, x.ipaddr) <==> d.Some? && ReadBack(Interfaces(d.value), x)
  {
    if d.Some? && ReadBack(Interfaces(d.value), x) {
      var entries := Interfaces(d.value);
      var i :| 0 <= i < |entries| && entries[i].name == x.name && entries[i].device == x.device
               && entries[i].ipaddr == x.ipaddr && forall j :: 0 <= j < i ==> entries[j].name != x.name;
      FirstIs(entries, Named(x.name), i);
    }
  }

  predicate VlanGone(d: Option<Doc>, parent: string, tag: int) {
    d.Some? && forall v :: v in Vlans(d.value) ==> !(v.parent == parent && v.tag == tag)
  }

  // ---------------------------------------------------------------- unique keys

  ghost predicate UniqueKeys(vlans: seq<Vlan>) {
    forall i, j :: 0 <= i < j < |vlans| ==> !(vlans[i].parent == vlans[j].parent && vlans[i].tag == vlans[j].tag)
  }

  /** Adding a VLAN never makes two entries with one parent and tag. */
  lemma PutKeepsKeysUnique(vlans: seq<Vlan>, v: Vlan)
    requires UniqueKeys(vlans)
    ensures UniqueKeys(Put(vlans, HasKey(v.parent, v.tag), v))
  {
    var p := HasKey(v.parent, v.tag);
    var after := Put(vlans, p, v);
    var k := First(vlans, p);
    forall i, j | 0 <= i < j < |after|
      ensures !(after[i].parent == after[j].parent && after[i].tag == after[j].tag)
    {
      if j < |vlans| {
        assert i != k ==> after[i] == vlans[i];
        assert j != k ==> after[j] == vlans[j];
        assert !(vlans[i].parent == vlans[j].parent && vlans[i].tag == vlans[j].tag);
      } else {
        assert !p(vlans[i]);
      }
    }
  }

  /** Where the element at `i` stood before the one at `k` was cut. */
  function Origin(k: nat, i: nat): nat {
    if i < k then i else i + 1
  }

  lemma CutFrom<T>(s: seq<T>, k: nat, i: nat)
    requires k < |s| && i < |s| - 1
    ensures (s[..k] + s[k + 1..])[i] == s[Origin(k, i)]
  {
  }

  lemma CutKeepsKeysUnique(vlans: seq<Vlan>, p: Vlan -> bool)
    requires UniqueKeys(vlans)
    ensures UniqueKeys(Cut(vlans, p))
  {
    var k := First(vlans, p);
    if k < |vlans| {
      var after := Cut(vlans, p);
      forall i, j | 0 <= i < j < |after|
        ensures !(after[i].parent == after[j].parent && after[i].tag == after[j].tag)
      {
        CutFrom(vlans, k, i);
        CutFrom(vlans, k, j);
        assert Origin(k, i) < Origin(k, j);
      }
    }
  }

  /** Removing with a parent deletes the first match only; nothing is left if and only if no
      later entry has the same key, which unique keys guarantee. */
  lemma RemovalIsComplete(d: Doc, parent: string, tag: int)
    requires parent != ""
    ensures var s := Vlans(d);
            var k := First(s, Matches(parent, tag));
            VlanGone(Some(Without(d, parent, tag)), parent, tag)
            <==> forall j :: k < j < |s| ==> !(s[j].parent == parent && s[j].tag == tag)
  {
    var p := Matches(parent, tag);
    var s, after := Vlans(d), Vlans(Without(d, parent, tag));
    var k := First(s, p);
    if k < |s| {
      CutMembers(s, k, after);
      assert forall j :: k < j < |s| ==> s[j] in after;
      assert forall j :: 0 <= j < k ==> !p(s[j]);
    }
  }

  lemma CutMembers<T>(s: seq<T>, k: nat, after: seq<T>)
    requires k < |s| && after == s[..k] + s[k + 1..]
    ensures forall j :: 0 <= j < |s| && j != k ==> s[j] in after
    ensures forall v :: v in after ==> exists j :: 0 <= j < |s| && j != k && s[j] == v
  {
    forall j | 0 <= j < |s| && j != k
      ensures s[j] in after
    {
      CutFrom(s, k, if j < k then j else j - 1);
    }
    forall v | v in after
      ensures exists j :: 0 <= j < |s| && j != k && s[j] == v
    {
      var i :| 0 <= i < |after| && after[i] == v;
      CutFrom(s, k, i);
    }
  }

  lemma UniqueKeysGoAway(d: Doc, parent: string, tag: int)
    requires parent != "" && UniqueKeys(Vlans(d))
    ensures VlanGone(Some(Without(d, parent, tag)), parent, tag)
    ensures UniqueKeys(Vlans(Without(d, parent, tag)))
  {
    RemovalIsComplete(d, parent, tag);
    CutKeepsKeysUnique(Vlans(d), Matches(parent, tag));
  }

  // ---------------------------------------------------------------- add, then remove

  function Added(d: Doc, v: Vlan, x: Iface): Doc {
    WithIface(WithVlan(d, v), x)
  }

  /** Neither the key, nor the interface name, nor the device is in the file yet. */
  predicate AllFresh(d: Doc, v: Vlan, x: Iface) {
    && (forall w :: w in Vlans(d) ==> !HasKey(v.parent, v.tag)(w))
    && (forall y :: y in Interfaces(d) ==> y.name != x.name)
    && (forall y :: y in Interfaces(d) ==> y.device != v.vlanif)
  }

  lemma PutThenCutVlan(s: seq<Vlan>, v: Vlan)
    requires v.parent != ""
    ensures var after := Put(s, HasKey(v.parent, v.tag), v);
            var k := First(after, Matches(v.parent, v.tag));
            && k < |after| && after[k] == v
            && (Cut(after, Matches(v.parent, v.tag)) == s <==> forall w :: w in s ==> !HasKey(v.parent, v.tag)(w))
  {
    var p, q := HasKey(v.parent, v.tag), Matches(v.parent, v.tag);
    var i := First(s, p);
    var after := Put(s, p, v);
    assert forall j :: 0 <= j < i ==> !p(s[j]) && !q(after[j]);
    FirstIs(after, q, i);
    if i < |s| {
      assert |Cut(after, q)| == |s| - 1;
      assert s[i] in s;
    } else {
      CutOfFresh(s, q, v);
    }
  }

  lemma PutThenCutIface(s: seq<Iface>, x: Iface)
    ensures Cut(Put(s, Named(x.name), x), OnDevice(x.device)) == s
            <==> (forall y :: y in s ==> y.name != x.name) && (forall y :: y in s ==> y.device != x.device)
  {
    var p, q := Named(x.name), OnDevice(x.device);
    var i := First(s, p);
    var after := Put(s, p, x);
    var k := First(after, q);
    var restored := Cut(after, q);
    if i < |s| {
      assert q(after[i]);
      assert |restored| == |s| - 1;
      assert s[i] in s;
    } else if y :| y in s && y.device == x.device {
      assert forall z :: z in s ==> !p(z);
      var j :| 0 <= j < |s| && s[j] == y;
      assert q(after[j]);
      assert k <= j;
      assert restored[|s| - 1] == x;
      assert x in restored && x !in s;
    } else {
      CutOfFresh(s, q, x);
    }
  }

  /** Adding a VLAN and removing it restores both lists if and only if its key, its interface
      name and its device were all fresh. */
  lemma AddThenRemoveRestores(d: Doc, v: Vlan, x: Iface)
    requires v.parent != "" && d.interfaces.Some? && x.device == v.vlanif
    ensures var after := Without(Added(d, v, x), v.parent, v.tag);
            Vlans(after) == Vlans(d) && after.interfaces == d.interfaces <==> AllFresh(d, v, x)
  {
    PutThenCutVlan(Vlans(d), v);
    PutThenCutIface(d.interfaces.value, x);
  }

  // ---------------------------------------------------------------- the calls

  /** What the environment does during one write: whether the agent runs the script without
      complaint, and whether the new file replaces the old one. */
  datatype Weather = Weather(agent: bool, lands: bool)

  class ConfigInVM {
    /** `None` is a file that cannot be loaded; the scripts then print a message and exit 0. */
    var doc: Option<Doc>

    /** `foreach` with a `break` at the first match. */
    method Find<T>(s: seq<T>, p: T -> bool) returns (i: nat)
      ensures i == First(s, p)
    {
      i := 0;
      while i < |s| && !p(s[i])
        invariant i <= |s| && forall j :: 0 <= j < i ==> !p(s[j])
      {
        i := i + 1;
      }
      FirstIs(s, p, i);
    }

    /** `add_vlan_device`. When it returns normally the entry is in the file; it returns
        normally exactly when the write reached a loadable file or the entry was there
        already. */
    method AddVlanDevice(v: Vlan, w: Weather) returns (r: Result)
      modifies this
      ensures doc == if w.lands && old(doc).Some? then Some(WithVlan(old(doc).value, v)) else old(doc)
      ensures r.Ok? <==> w.agent && doc.Some? && Has(Vlans(doc.value), v.parent, v.tag, v.vlanif)
      ensures r.Ok? <==> w.agent && ((w.lands && old(doc).Some?) || old(VlanListed(doc, v.parent, v.tag, v.vlanif)))
    {
      if doc.Some? {
        var s := Vlans(doc.value);
        var i := Find(s, HasKey(v.parent, v.tag));
        var written := if i < |s| then s[i := v] else s + [v];
        assert written[i] == v;
        if w.lands {
          doc := Some(doc.value.(vlans := Some(written)));
          assert v in Vlans(doc.value);
        }
      }
      if !w.agent {
        return Raised;
      }
      var listed := VlanListed(doc, v.parent, v.tag, v.vlanif);
      r := if listed then Ok else Raised;
      if listed {
        ghost var u :| u in Vlans(doc.value) && u.parent == v.parent && u.tag == v.tag && u.vlanif == v.vlanif;
        ghost var i :| 0 <= i < |Vlans(doc.value)| && Vlans(doc.value)[i] == u;
        assert Vlans(doc.value)[i] == Vlan(v.parent, v.tag, v.vlanif, u.descr);
      }
    }

    /** `add_opt_interface`. The check looks at the device and the address, not at the prefix
        length. */
    method AddOptInterface(x: Iface, w: Weather) returns (r: Result)
      modifies this
      ensures doc == if w.lands && old(doc).Some? then Some(WithIface(old(doc).value, x)) else old(doc)
      ensures r.Ok? <==> w.agent && doc.Some? && ReadBack(Interfaces(doc.value), x)
      ensures r.Ok? <==> w.agent && ((w.lands && old(doc).Some? && old(doc).value.interfaces.Some?)
                                     || old(IfaceListed(doc, x.name, x.device, x.ipaddr)))
    {
      hide ReadBack;
      if doc.Some? && doc.value.interfaces.Some? {
        var s := doc.value.interfaces.value;
        var i := Find(s, Named(x.name));
        var written := if i < |s| then s[i := x] else s + [x];
        FirstIs(written, Named(x.name), i);
        if w.lands {
          doc := Some(doc.value.(interfaces := Some(written)));
        }
      }
      if !w.agent {
        return Raised;
      }
      r := if IfaceListed(doc, x.name, x.device, x.ipaddr) then Ok else Raised;
      ListedIsReadBack(doc, x);
    }

    /** `add_vlan`: device, interface, then the running interface. */
    method AddVlan(v: Vlan, x: Iface, w1: Weather, w2: Weather, shell: bool) returns (r: Result)
      requires x.device == v.vlanif
      modifies this
      ensures r.Ok? ==>
                && doc.Some? && doc.value.interfaces.Some?
                && Has(Vlans(doc.value), v.parent, v.tag, v.vlanif)
                && ReadBack(doc.value.interfaces.value, x)
      ensures w1 == Weather(true, true) && w2 == w1 && shell && old(doc).Some? && old(doc).value.interfaces.Some? ==>
                r.Ok? && doc == Some(Added(old(doc).value, v, x))
    {
      r := AddVlanDevice(v, w1);
      if r.Raised? {
        return;
      }
      r := AddOptInterface(x, w2);
      if r.Ok? && !shell {
        r := Raised;
      }
    }

    /** `remove_vlan`. With a parent a normal return means the entry is gone; without one
        nothing is verified, and even a write that did nothing returns normally. `destroyed` is
        the device torn down, which is one whose interface entry was found as well. */
    method RemoveVlan(parent: string, tag: int, w: Weather) returns (r: Result, destroyed: Option<string>)
      modifies this
      ensures doc == if w.lands && old(doc).Some? then Some(Without(old(doc).value, parent, tag)) else old(doc)
      ensures parent != "" ==> (r.Ok? <==> w.agent && VlanGone(doc, parent, tag))
      ensures parent == "" ==> (r.Ok? <==> w.agent)
      ensures destroyed == if w.agent && old(doc).Some? then Torn(old(doc).value, parent, tag) else None
    {
      destroyed := None;
      if doc.Some? {
        var d := doc.value;
        var s := Vlans(d);
        var i := Find(s, Matches(parent, tag));
        if i < |s| {
          var device := s[i].vlanif;
          var interfaces := d.interfaces;
          if d.interfaces.Some? {
            var k := Find(d.interfaces.value, OnDevice(device));
            if k < |d.interfaces.value| {
              interfaces := Some(d.interfaces.value[..k] + d.interfaces.value[k + 1..]);
              if w.agent {
                destroyed := Some(device);
              }
            }
          }
          d := Doc(Some(s[..i] + s[i + 1..]), interfaces);
        }
        if w.lands {
          doc := Some(d);
        }
      }
      if !w.agent {
        return Raised, None;
      }
      r := if parent != "" && !VlanGone(doc, parent, tag) then Raised else Ok;
    }
  }
}
