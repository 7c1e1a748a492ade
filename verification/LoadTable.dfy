/**
 The 16-slot table of decoder and encoder loads: update_case_load_param_sun55iw3 of cedar_ve.c as a
 bounded map keyed by process and thread.
 */
module LoadTables {

  const CHANNELS: nat := 16

  /** struct ve_case_load_param */
  datatype Param = Param(width: int, height: int, frameRate: int, codec: int, remove: int, thread: int)

  /** struct ve_case_load_info */
  datatype Slot = Slot(param: Param, used: int, process: nat)

  /** A slot after memset. */
  const CLEAR := Slot(Param(0, 0, 0, 0, 0, 0), 0, 0)

  type Key = (nat, int)

  function KeyOf(x: Slot): Key {
    (x.process, x.param.thread)
  }

  predicate Used(x: Slot) {
    x.used == 1
  }

  /** Slots are used or not, and no two used slots share a key. */
  ghost predicate TableInv(ss: seq<Slot>) {
    && |ss| == CHANNELS
    && (forall i :: 0 <= i < |ss| ==> ss[i].used == 0 || ss[i].used == 1)
    && (forall i, j ::
          0 <= i < |ss| && 0 <= j < |ss| && Used(ss[i]) && Used(ss[j]) && KeyOf(ss[i]) == KeyOf(ss[j]) ==> i == j)
  }

  /** The load of each process and thread. */
  ghost function Loads(ss: seq<Slot>): map<Key, Param>
    requires TableInv(ss)
  {
    map i | 0 <= i < |ss| && Used(ss[i]) :: KeyOf(ss[i]) := ss[i].param
  }

  lemma LoadsAt(ss: seq<Slot>, i: nat)
    requires TableInv(ss) && i < |ss| && Used(ss[i])
    ensures KeyOf(ss[i]) in Loads(ss) && Loads(ss)[KeyOf(ss[i])] == ss[i].param
  {
  }

  lemma LoadsFrom(ss: seq<Slot>, key: Key) returns (i: nat)
    requires TableInv(ss) && key in Loads(ss)
    ensures i < |ss| && Used(ss[i]) && KeyOf(ss[i]) == key && ss[i].param == Loads(ss)[key]
  {
    i :| 0 <= i < |ss| && Used(ss[i]) && KeyOf(ss[i]) == key;
  }

  /** Storing a load in the slot of its key, or in an unused slot when the key is absent, updates the map. */
  lemma StoreIsUpdate(ss: seq<Slot>, i: nat, x: Slot)
    requires TableInv(ss) && i < |ss| && Used(x) && Spot(ss, i, KeyOf(x))
    ensures TableInv(ss[i := x]) && Loads(ss[i := x]) == Loads(ss)[KeyOf(x) := x.param]
  {
    hide Loads, KeyOf;
    var ss', key := ss[i := x], KeyOf(x);
    assert forall j :: 0 <= j < |ss| && j != i ==> ss'[j] == ss[j];
    assert TableInv(ss');
    forall k
      ensures k in Loads(ss') <==> k in Loads(ss)[key := x.param]
      ensures k in Loads(ss') ==> Loads(ss')[k] == Loads(ss)[key := x.param][k]
    {
      LoadsAt(ss', i);
      if k != key {
        SameLoad(ss, ss', i, k);
      }
    }
  }

  /** Slot i has the key, or no slot has it and slot i is unused. */
  ghost predicate Spot(ss: seq<Slot>, i: nat, key: Key)
    requires i < |ss|
  {
    (Used(ss[i]) && KeyOf(ss[i]) == key) || (!Used(ss[i]) && Absent(ss, key))
  }

  ghost predicate Absent(ss: seq<Slot>, key: Key) {
    forall j :: 0 <= j < |ss| ==> !(Used(ss[j]) && KeyOf(ss[j]) == key)
  }

  /** Keys held by other slots are not affected by a store to slot i. */
  lemma SameLoad(ss: seq<Slot>, ss': seq<Slot>, i: nat, k: Key)
    requires TableInv(ss) && TableInv(ss') && i < |ss| && forall j :: 0 <= j < |ss| && j != i ==> ss'[j] == ss[j]
    requires !(Used(ss[i]) && KeyOf(ss[i]) == k) && !(Used(ss'[i]) && KeyOf(ss'[i]) == k)
    ensures k in Loads(ss') <==> k in Loads(ss)
    ensures k in Loads(ss) ==> Loads(ss')[k] == Loads(ss)[k]
  {
    if k in Loads(ss) {
      var j := LoadsFrom(ss, k);
      LoadsAt(ss', j);
    }
    if k in Loads(ss') {
      var j := LoadsFrom(ss', k);
      LoadsAt(ss, j);
    }
  }

  /** Clearing that slot removes the key. */
  lemma ClearIsRemove(ss: seq<Slot>, i: nat, key: Key)
    requires TableInv(ss) && i < |ss| && Spot(ss, i, key)
    ensures TableInv(ss[i := CLEAR]) && Loads(ss[i := CLEAR]) == Loads(ss) - {key}
  {
    hide Loads, KeyOf;
    var ss' := ss[i := CLEAR];
    assert forall j :: 0 <= j < |ss| && j != i ==> ss'[j] == ss[j];
    assert TableInv(ss');
    AbsentKey(ss', key);
    forall k | k != key
      ensures k in Loads(ss') <==> k in Loads(ss)
      ensures k in Loads(ss) ==> Loads(ss')[k] == Loads(ss)[k]
    {
      SameLoad(ss, ss', i, k);
    }
  }

  class LoadTable {
    const slots: array<Slot>

    ghost predicate Valid()
      reads this, slots
    {
      TableInv(slots[..])
    }

    constructor ()
      ensures Valid() && fresh(slots) && Loads(slots[..]) == map[] && slots.Length == 16
    {
      slots := new Slot[CHANNELS](i => CLEAR);
    }

    /** The first loop of the update: the used slot with this key, or CHANNELS. */
    method FindKey(thread: int, process: nat) returns (i: nat)
      requires Valid()
      ensures i <= CHANNELS
      ensures i < CHANNELS ==> Used(slots[i]) && KeyOf(slots[i]) == (process, thread)
      ensures i == CHANNELS ==> Absent(slots[..], (process, thread))
    {
      i := 0;
      while i < CHANNELS
        invariant i <= CHANNELS && forall j :: 0 <= j < i ==> !(Used(slots[j]) && KeyOf(slots[j]) == (process, thread))
      {
        if slots[i].used == 1 && thread == slots[i].param.thread && process == slots[i].process {
          return;
        }
        i := i + 1;
      }
    }

    /** The second loop: the first unused slot, or CHANNELS. */
    method FindEmpty() returns (i: nat)
      requires Valid()
      ensures i <= CHANNELS
      ensures i < CHANNELS ==> !Used(slots[i])
      ensures i == CHANNELS ==> forall j :: 0 <= j < CHANNELS ==> Used(slots[j])
    {
      i := 0;
      while i < CHANNELS
        invariant i <= CHANNELS && forall j :: 0 <= j < i ==> Used(slots[j])
      {
        if slots[i].used == 0 {
          return;
        }
        i := i + 1;
      }
    }

    /**
     update_case_load_param_sun55iw3: a map update or removal; -1 exactly when the key is absent and
     every slot is used, and then nothing changes.
     */
    method Update(p: Param, process: nat) returns (r: int)
      requires Valid()
      modifies slots
      ensures Valid()
      ensures r == -1 || r == 0
      ensures r == -1 <==>
        (process, p.thread) !in Loads(old(slots[..])) && forall i :: 0 <= i < 16 ==> old(slots[..])[i].used == 1
      ensures r == -1 ==> slots[..] == old(slots[..])
      ensures r == 0 && p.remove == 1 ==> Loads(slots[..]) == Loads(old(slots[..])) - {(process, p.thread)}
      ensures r == 0 && p.remove != 1 ==> Loads(slots[..]) == Loads(old(slots[..]))[(process, p.thread) := p]
    {
      ghost var ss, key := slots[..], (process, p.thread);
      var i := FindKey(p.thread, process);
      if i < CHANNELS {
        LoadsAt(ss, i);
      } else {
        AbsentKey(ss, key);
        i := FindEmpty();
        if i == CHANNELS {
          return -1;
        }
      }
      assert Spot(ss, i, key);
      if p.remove == 1 {
        ClearIsRemove(ss, i, key);
        slots[i] := CLEAR;
        assert slots[..] == ss[i := CLEAR];
      } else {
        StoreIsUpdate(ss, i, Slot(p, 1, process));
        slots[i] := Slot(p, 1, process);
        assert slots[..] == ss[i := Slot(p, 1, process)];
      }
      return 0;
    }
  }

  lemma AbsentKey(ss: seq<Slot>, key: Key)
    requires TableInv(ss) && Absent(ss, key)
    ensures key !in Loads(ss)
  {
    if key in Loads(ss) {
      var i := LoadsFrom(ss, key);
    }
  }
}
