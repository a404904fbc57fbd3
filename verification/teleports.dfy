/** The teleport registry: a Python dict from teleport-in cell to its exit
    (or None while unpaired). A dict remembers insertion order, and the editor
    reads its most recently inserted key, so the registry is an ordered
    sequence of (entry, exit) pairs with the dict's assignment and deletion. */
module Teleports {
  import opened Base
  import opened Board

  datatype Teleport = Teleport(entry: Coord, exit: Option<Coord>)

  type Registry = seq<Teleport>

  /** Raised by `del d[k]` on a missing key. */
  datatype KeyError = KeyError(key: Coord)

  /** The keys in insertion order, as `list(d.keys())`. */
  function Keys(reg: Registry): seq<Coord> {
    seq(|reg|, i requires 0 <= i < |reg| => reg[i].entry)
  }

  /** Every exit that some entry is paired with. */
  function Exits(reg: Registry): set<Coord> {
    set i | 0 <= i < |reg| && reg[i].exit.Some? :: reg[i].exit.value
  }

  /** Position of the first pair whose entry is k. */
  function IndexOf(reg: Registry, k: Coord): (r: Option<nat>)
    ensures r.None? <==> k !in Keys(reg)
    ensures r.Some? ==> r.value < |reg| && reg[r.value].entry == k
    ensures r.Some? ==> forall j :: 0 <= j < r.value ==> reg[j].entry != k
    decreases |reg|
  {
    if reg == [] then None
    else if reg[0].entry == k then
      assert Keys(reg)[0] == k;
      Some(0)
    else
      assert Keys(reg) == [reg[0].entry] + Keys(reg[1..]);
      match IndexOf(reg[1..], k)
      case None => None
      case Some(i) => Some(i + 1)
  }

  /** IndexOf only looks at the entries. */
  lemma IndexOfKeys(a: Registry, b: Registry, k: Coord)
    requires Keys(a) == Keys(b)
    ensures IndexOf(a, k) == IndexOf(b, k)
  {
    assert |a| == |b| by { assert |Keys(a)| == |Keys(b)|; }
    var x := IndexOf(a, k);
    if x.Some? {
      assert b[x.value].entry == k by { assert Keys(a)[x.value] == Keys(b)[x.value]; }
      forall j | 0 <= j < x.value ensures b[j].entry != k {
        assert Keys(a)[j] == Keys(b)[j];
      }
      IndexOfIs(b, k, x.value);
    } else {
      forall j | 0 <= j < |b| ensures b[j].entry != k {
        assert Keys(a)[j] == Keys(b)[j];
      }
      IndexOfAbsent(b, k);
    }
  }

  /** `d.get(k)` wrapped once more: None when k is not a key, else Some(d[k]). */
  function Lookup(reg: Registry, k: Coord): (r: Option<Option<Coord>>)
    ensures r.Some? <==> k in Keys(reg)
    ensures Distinct(Keys(reg)) ==>
              forall i :: 0 <= i < |reg| && reg[i].entry == k ==> r == Some(reg[i].exit)
    ensures r == Some(None) || r == None || r.value.value in Exits(reg)
  {
    assert forall j :: 0 <= j < |reg| ==> Keys(reg)[j] == reg[j].entry;
    match IndexOf(reg, k)
    case None => None
    case Some(i) => Some(reg[i].exit)
  }

  /** Assigning at position i of a pair with the same entry changes no other lookup. */
  lemma OverwriteAt(reg: Registry, k: Coord, i: nat, v: Option<Coord>)
    requires IndexOf(reg, k) == Some(i)
    ensures Keys(reg[i := Teleport(k, v)]) == Keys(reg)
    ensures Lookup(reg[i := Teleport(k, v)], k) == Some(v)
    ensures forall k' :: k' != k ==> Lookup(reg[i := Teleport(k, v)], k') == Lookup(reg, k')
  {
    var r := reg[i := Teleport(k, v)];
    assert Keys(r) == Keys(reg);
    IndexOfKeys(r, reg, k);
    forall k' | k' != k ensures Lookup(r, k') == Lookup(reg, k') {
      IndexOfKeys(r, reg, k');
    }
  }

  /** The first matching position is what IndexOf reports. */
  lemma IndexOfIs(reg: Registry, k: Coord, i: nat)
    requires i < |reg| && reg[i].entry == k
    requires forall j :: 0 <= j < i ==> reg[j].entry != k
    ensures IndexOf(reg, k) == Some(i)
  {
    assert Keys(reg)[i] == k;
    var x := IndexOf(reg, k);
    assert !(x.value < i);
    assert !(i < x.value);
  }

  /** With no matching entry, IndexOf reports None. */
  lemma IndexOfAbsent(reg: Registry, k: Coord)
    requires forall j :: 0 <= j < |reg| ==> reg[j].entry != k
    ensures IndexOf(reg, k) == None
  {
  }

  /** Appending a pair for a new key changes no other lookup. */
  lemma Append(reg: Registry, k: Coord, v: Option<Coord>)
    requires k !in Keys(reg)
    ensures Keys(reg + [Teleport(k, v)]) == Keys(reg) + [k]
    ensures Lookup(reg + [Teleport(k, v)], k) == Some(v)
    ensures forall k' :: k' != k ==> Lookup(reg + [Teleport(k, v)], k') == Lookup(reg, k')
  {
    var r := reg + [Teleport(k, v)];
    assert Keys(r) == Keys(reg) + [k];
    forall j | 0 <= j < |reg| ensures reg[j].entry != k {
      assert Keys(reg)[j] == reg[j].entry;
    }
    IndexOfIs(r, k, |reg|);
    forall k' | k' != k ensures IndexOf(r, k') == IndexOf(reg, k') {
      var y := IndexOf(reg, k');
      if y.Some? {
        IndexOfIs(r, k', y.value);
      } else {
        forall j | 0 <= j < |reg| ensures reg[j].entry != k' {
          assert Keys(reg)[j] == reg[j].entry;
        }
        IndexOfAbsent(r, k');
      }
    }
  }

  /** `d[k] = v`: overwrite in place when k is a key, otherwise append. */
  function Put(reg: Registry, k: Coord, v: Option<Coord>): (r: Registry)
    ensures Lookup(r, k) == Some(v)
    ensures forall k' :: k' != k ==> Lookup(r, k') == Lookup(reg, k')
    ensures Keys(r) == if k in Keys(reg) then Keys(reg) else Keys(reg) + [k]
    ensures Distinct(Keys(reg)) ==> Distinct(Keys(r))
  {
    match IndexOf(reg, k)
    case Some(i) =>
      OverwriteAt(reg, k, i, v);
      reg[i := Teleport(k, v)]
    case None =>
      Append(reg, k, v);
      reg + [Teleport(k, v)]
  }

  /** Removing position i keeps the others in order. */
  function RemoveAt(reg: Registry, i: nat): Registry
    requires i < |reg|
  {
    reg[..i] + reg[i + 1..]
  }

  /** Dropping position i keeps the first match of a key found elsewhere, shifted down. */
  lemma RemoveKeepsIndex(reg: Registry, i: nat, k': Coord, y: nat)
    requires i < |reg| && IndexOf(reg, k') == Some(y) && y != i
    ensures Lookup(RemoveAt(reg, i), k') == Lookup(reg, k')
  {
    var r := RemoveAt(reg, i);
    var m := if y < i then y else y - 1;
    assert r[m] == reg[y];
    forall j | 0 <= j < m ensures r[j].entry != k' {
      var n := if j < i then j else j + 1;
      assert reg[n] == r[j];
    }
    IndexOfIs(r, k', m);
  }

  /** Dropping a position cannot make a missing key appear. */
  lemma RemoveKeepsAbsent(reg: Registry, i: nat, k': Coord)
    requires i < |reg| && IndexOf(reg, k') == None
    ensures Lookup(RemoveAt(reg, i), k') == None
  {
    var r := RemoveAt(reg, i);
    forall j | 0 <= j < |r| ensures r[j].entry != k' {
      var n := if j < i then j else j + 1;
      assert Keys(reg)[n] == r[j].entry;
    }
    IndexOfAbsent(r, k');
  }

  /** Dropping the first pair for k leaves every other lookup unchanged. */
  lemma RemoveFirstLookup(reg: Registry, k: Coord, i: nat, k': Coord)
    requires IndexOf(reg, k) == Some(i) && k' != k
    ensures Lookup(RemoveAt(reg, i), k') == Lookup(reg, k')
  {
    var y := IndexOf(reg, k');
    if y.Some? {
      RemoveKeepsIndex(reg, i, k', y.value);
    } else {
      RemoveKeepsAbsent(reg, i, k');
    }
  }

  /** Dropping a position keeps distinct keys distinct and removes exactly that key. */
  lemma RemoveAtKeys(reg: Registry, i: nat)
    requires i < |reg| && Distinct(Keys(reg))
    ensures Distinct(Keys(RemoveAt(reg, i)))
    ensures forall k' :: k' in Keys(RemoveAt(reg, i)) <==> k' in Keys(reg) && k' != reg[i].entry
  {
    var r := RemoveAt(reg, i);
    forall a, b | 0 <= a < b < |r| ensures Keys(r)[a] != Keys(r)[b] {
      var a' := if a < i then a else a + 1;
      var b' := if b < i then b else b + 1;
      assert Keys(reg)[a'] != Keys(reg)[b'];
    }
    forall k' ensures k' in Keys(r) <==> k' in Keys(reg) && k' != reg[i].entry {
      if k' in Keys(r) {
        var a :| 0 <= a < |r| && Keys(r)[a] == k';
        var a' := if a < i then a else a + 1;
        assert Keys(reg)[a'] == k';
        assert Keys(reg)[i] == reg[i].entry;
      }
      if k' in Keys(reg) && k' != reg[i].entry {
        var a :| 0 <= a < |reg| && Keys(reg)[a] == k';
        assert a != i;
        var m := if a < i then a else a - 1;
        assert Keys(r)[m] == k';
      }
    }
  }

  /** `del d[k]`: a KeyError when k is not a key, otherwise drop its pair. */
  function Delete(reg: Registry, k: Coord): (r: Outcome<Registry, KeyError>)
    ensures r.Err? <==> k !in Keys(reg)
    ensures r.Err? ==> r.error == KeyError(k)
    ensures r.Ok? ==> |r.value| == |reg| - 1
    ensures r.Ok? ==> forall k' :: k' != k ==> Lookup(r.value, k') == Lookup(reg, k')
    ensures r.Ok? && Distinct(Keys(reg)) ==>
              Distinct(Keys(r.value)) && forall k' :: k' in Keys(r.value) <==> k' in Keys(reg) && k' != k
    // the remaining keys keep their insertion order
    ensures r.Ok? ==> var i := IndexOf(reg, k).value; Keys(r.value) == Keys(reg)[..i] + Keys(reg)[i + 1..]
  {
    match IndexOf(reg, k)
    case None => Err(KeyError(k))
    case Some(i) =>
      forall k' | k' != k ensures Lookup(RemoveAt(reg, i), k') == Lookup(reg, k') {
        RemoveFirstLookup(reg, k, i, k');
      }
      if Distinct(Keys(reg)) then
        RemoveAtKeys(reg, i);
        Ok(RemoveAt(reg, i))
      else
        Ok(RemoveAt(reg, i))
  }

  /** `d[k] = v` for each key of ks in turn. */
  function PutAll(reg: Registry, ks: seq<Coord>, v: Option<Coord>): Registry
    decreases |ks|
  {
    if ks == [] then reg else PutAll(Put(reg, ks[0], v), ks[1..], v)
  }

  /** `list(d.keys())` lists the keys in the order they were first assigned:
      assigning fresh keys one by one appends them in that order. */
  lemma {:induction false} InsertionOrder(reg: Registry, ks: seq<Coord>, v: Option<Coord>)
    requires Distinct(Keys(reg) + ks)
    ensures Keys(PutAll(reg, ks, v)) == Keys(reg) + ks
    decreases |ks|
  {
    if ks != [] {
      var all := Keys(reg) + ks;
      assert ks[0] !in Keys(reg) by {
        forall j | 0 <= j < |Keys(reg)| ensures Keys(reg)[j] != ks[0] {
          assert all[j] == Keys(reg)[j] && all[|Keys(reg)|] == ks[0];
        }
      }
      var reg' := Put(reg, ks[0], v);
      assert Keys(reg') + ks[1..] == all;
      InsertionOrder(reg', ks[1..], v);
    }
  }

  /** `d[k] = v` on a new key followed by `del d[k]` gives back the dict
      exactly, order included. */
  lemma PutDeleteRoundTrip(reg: Registry, k: Coord, v: Option<Coord>)
    requires k !in Keys(reg)
    ensures Delete(Put(reg, k, v), k) == Ok(reg)
  {
    var r := Put(reg, k, v);
    assert r == reg + [Teleport(k, v)];
    forall j | 0 <= j < |reg| ensures r[j].entry != k {
      assert Keys(reg)[j] == reg[j].entry;
    }
    IndexOfIs(r, k, |reg|);
    assert RemoveAt(r, |reg|) == reg;
  }
}
