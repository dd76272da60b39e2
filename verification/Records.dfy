/** The record that carries one nonzero between processes: a fixed array of six subscripts and a value. */
module Records {
  import opened Mttkrp

  /** How a call ends. Undefined means that the code writes outside an array, after which nothing is
      promised. */
  datatype Outcome<T> = Done(value: T) | Failed | Undefined

  /** Subscripts that a record has room for. */
  const ROOM := 6

  /** More modes than this are rejected on rank 0. */
  const MAX_MODES := 12

  /** What a subscript holds before it is written. */
  const UNSET := 0xFFFF_FFFF

  datatype Record = Record(coo: seq<nat>, val: real)

  /** A nonzero in a record. */
  function Packed(e: Entry): (r: Record)
    requires |e.coo| <= ROOM
    ensures |r.coo| == ROOM
  {
    Record(e.coo + seq(ROOM - |e.coo|, _ => UNSET), e.val)
  }

  /** The nonzero that the first nd subscripts of a record and its value stand for. */
  function Unpacked(r: Record, nd: nat): Entry
  {
    Entry(if nd <= |r.coo| then r.coo[..nd] else r.coo, r.val)
  }

  /** Write the subscripts of a nonzero one by one. */
  method Pack(e: Entry) returns (r: Outcome<Record>)
    ensures r.Done? <==> |e.coo| <= ROOM
    ensures r.Done? ==> r.value == Packed(e)
    ensures !r.Failed?
    ensures r.Done? ==> |e.coo| <= |r.value.coo| == 6 && r.value.val == e.val
    ensures r.Done? ==> forall j :: 0 <= j < |e.coo| ==> r.value.coo[j] == e.coo[j]
  {
    var coo: seq<nat> := seq(ROOM, _ => UNSET);
    var j := 0;
    while j < |e.coo|
      invariant 0 <= j <= |e.coo| && j <= ROOM == |coo|
      invariant forall k :: 0 <= k < ROOM ==> coo[k] == if k < j then e.coo[k] else UNSET
    {
      if j >= ROOM {
        return Undefined;
      }
      coo := coo[j := e.coo[j]];
      j := j + 1;
    }
    assert coo == Packed(e).coo;
    r := Done(Record(coo, e.val));
  }

  lemma UnpackedPacked(e: Entry)
    requires |e.coo| <= ROOM
    ensures Unpacked(Packed(e), |e.coo|) == e
  {
  }

  /** Some record gives the nonzero back. */
  ghost predicate Holds(e: Entry)
  {
    exists r: Record :: |r.coo| == ROOM && Unpacked(r, |e.coo|) == e
  }

  /** A record can hold all nonzeros of a tensor exactly when it has at most six modes; then packing and
      unpacking is the identity. */
  lemma RoomForSix(nd: nat)
    ensures nd <= ROOM <==> forall e: Entry :: |e.coo| == nd ==> Holds(e)
    ensures nd <= ROOM <==> nd <= 6
    ensures nd <= ROOM ==> forall e: Entry :: |e.coo| == nd ==> Unpacked(Packed(e), nd) == e
  {
    if nd <= ROOM {
      forall e: Entry | |e.coo| == nd ensures Holds(e) {
        UnpackedPacked(e);
      }
    } else {
      var e := Entry(seq(nd, _ => 0), 1.0);
      assert |e.coo| == nd && !Holds(e);
    }
  }

  // ----- lists of records

  function UnpackedAll(rs: seq<Record>, nd: nat): (xs: seq<Entry>)
    ensures |xs| == |rs| && forall i :: 0 <= i < |rs| ==> xs[i] == Unpacked(rs[i], nd)
  {
    seq(|rs|, i requires 0 <= i < |rs| => Unpacked(rs[i], nd))
  }

  /** Write all nonzeros; with more than six modes the first one already overruns its record. */
  method PackAll(xs: seq<Entry>, nd: nat) returns (r: Outcome<seq<Record>>)
    requires forall i :: 0 <= i < |xs| ==> |xs[i].coo| == nd
    ensures r.Done? <==> nd <= ROOM || |xs| == 0
    ensures r.Done? ==> |r.value| == |xs| && UnpackedAll(r.value, nd) == xs
    ensures r.Done? ==> forall i :: 0 <= i < |r.value| ==> |r.value[i].coo| == ROOM
    ensures !r.Failed?
  {
    var rs: seq<Record> := [];
    while |rs| < |xs|
      invariant |rs| <= |xs| && (|rs| > 0 ==> nd <= ROOM)
      invariant forall i :: 0 <= i < |rs| ==> |rs[i].coo| == ROOM && Unpacked(rs[i], nd) == xs[i]
    {
      var packed := Pack(xs[|rs|]);
      if packed.Undefined? {
        return Undefined;
      }
      UnpackedPacked(xs[|rs|]);
      rs := rs + [packed.value];
    }
    r := Done(rs);
  }
}
