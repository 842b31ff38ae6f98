/**
 * Which radio units serve which eNB: init_RU (executables/lte-ru.c) appends every RU to the list of
 * each eNB it names, and init_eNB_afterRU (executables/lte-enb.c) numbers the antennas of an eNB's
 * RUs consecutively. eNBs and RUs are known by their index.
 */
module Attachment {
  datatype Option<T> = None | Some(value: T)

  /** An RU's own list: `count` entries are in use; the first entry may be unset. */
  datatype Ru = Ru(count: nat, first: Option<nat>, others: seq<nat>)

  ghost predicate Valid(r: Ru, enbs: nat) {
    && (r.count > 0 && r.first.Some? ==> r.first.value < enbs && r.count <= |r.others| + 1)
    && forall i | 0 <= i < |r.others| :: r.others[i] < enbs
  }

  ghost predicate AllValid(rus: seq<Ru>, enbs: nat) {
    forall i | 0 <= i < |rus| :: Valid(rus[i], enbs)
  }

  /** The eNBs an RU is attached to: an unset list means eNB 0 alone. */
  function Targets(r: Ru): seq<nat>
    requires r.count > 0 && r.first.Some? ==> r.count <= |r.others| + 1
  {
    if r.count == 0 then []
    else match r.first
      case None => [0]
      case Some(e) => [e] + r.others[..r.count - 1]
  }

  lemma TargetsInRange(r: Ru, enbs: nat)
    requires Valid(r, enbs) && enbs > 0
    ensures forall i | 0 <= i < |Targets(r)| :: Targets(r)[i] < enbs
  {
    var t := Targets(r);
    forall i | 0 <= i < |t| ensures t[i] < enbs {
      if r.first.Some? && i > 0 {
        assert t[i] == r.others[i - 1];
      }
    }
  }

  // ------------------------------------------------------------------ what the tables must hold

  /** How often `x` occurs. */
  function Occurrences(s: seq<nat>, x: nat): nat {
    if s == [] then 0 else Occurrences(s[..|s| - 1], x) + (if s[|s| - 1] == x then 1 else 0)
  }

  /** How often RU `ru` names eNB `e`. */
  function Naming(rus: seq<Ru>, enbs: nat, ru: nat, e: nat): nat
    requires AllValid(rus, enbs)
  {
    if ru < |rus| then Occurrences(Targets(rus[ru]), e) else 0
  }

  predicate Ascending(s: seq<nat>) {
    forall i, j | 0 <= i < j < |s| :: s[i] <= s[j]
  }

  /** The list of eNB `e` holds every RU as often as the RU names the eNB, in RU order. */
  ghost predicate Attached(list: seq<nat>, rus: seq<Ru>, enbs: nat, e: nat)
    requires AllValid(rus, enbs)
  {
    && Ascending(list)
    && forall ru: nat :: Occurrences(list, ru) == Naming(rus, enbs, ru, e)
  }

  lemma {:induction false} OccurrencesAppend(s: seq<nat>, y: nat, x: nat)
    ensures Occurrences(s + [y], x) == Occurrences(s, x) + (if y == x then 1 else 0)
  {
    assert (s + [y])[..|s|] == s;
  }

  lemma {:induction false} OccursIffIn(s: seq<nat>, x: nat)
    ensures Occurrences(s, x) > 0 <==> x in s
  {
    if s != [] {
      OccursIffIn(s[..|s| - 1], x);
      assert s == s[..|s| - 1] + [s[|s| - 1]];
    }
  }

  predicate DuplicateFree(s: seq<nat>) {
    forall i, j | 0 <= i < j < |s| :: s[i] != s[j]
  }

  lemma {:induction false} DuplicateFreeOnce(s: seq<nat>, x: nat)
    requires DuplicateFree(s)
    ensures Occurrences(s, x) <= 1
  {
    if s != [] {
      DuplicateFreeOnce(s[..|s| - 1], x);
      OccursIffIn(s[..|s| - 1], x);
    }
  }

  lemma {:induction false} RepeatedTwice(s: seq<nat>, i: nat, j: nat)
    requires i < j < |s| && s[i] == s[j]
    ensures Occurrences(s, s[i]) >= 2
  {
    var front := s[..|s| - 1];
    if j == |s| - 1 {
      assert front[i] == s[i];
      OccursIffIn(front, s[i]);
    } else {
      RepeatedTwice(front, i, j);
    }
  }

  /**
   * When no RU names an eNB twice, an eNB's list is duplicate free, strictly ascending, and holds
   * exactly the RUs that name the eNB.
   */
  lemma AttachedOnce(list: seq<nat>, rus: seq<Ru>, enbs: nat, e: nat)
    requires AllValid(rus, enbs) && Attached(list, rus, enbs, e)
    requires forall i | 0 <= i < |rus| :: DuplicateFree(Targets(rus[i]))
    ensures forall ru: nat | ru < |rus| :: ru in list <==> e in Targets(rus[ru])
    ensures forall ru | ru in list :: ru < |rus|
    ensures forall i, j | 0 <= i < j < |list| :: list[i] < list[j]
  {
    forall ru: nat ensures ru in list <==> ru < |rus| && e in Targets(rus[ru]) {
      assert Occurrences(list, ru) == Naming(rus, enbs, ru, e);
      OccursIffIn(list, ru);
      if ru < |rus| {
        OccursIffIn(Targets(rus[ru]), e);
      }
    }
    forall i, j | 0 <= i < j < |list| ensures list[i] < list[j] {
      if list[i] == list[j] {
        RepeatedTwice(list, i, j);
        var ru := list[i];
        assert Occurrences(list, ru) == Naming(rus, enbs, ru, e);
        if ru < |rus| {
          DuplicateFreeOnce(Targets(rus[ru]), e);
        }
        assert false;
      }
    }
  }

  // -------------------------------------------------------------- the same in the RU's own fields

  /** Entry i of the RU's list names eNB e. With the first entry unset there is one entry, for eNB 0. */
  ghost predicate NamesAt(r: Ru, i: nat, e: nat) {
    && i < r.count
    && match r.first
       case None => i == 0 && e == 0
       case Some(f) => if i == 0 then e == f else i - 1 < |r.others| && e == r.others[i - 1]
  }

  /** How many of the first n entries name eNB e. */
  ghost function NameCount(r: Ru, e: nat, n: nat): nat {
    if n == 0 then 0 else NameCount(r, e, n - 1) + if NamesAt(r, n - 1, e) then 1 else 0
  }

  lemma {:induction false} UnsetCount(r: Ru, e: nat, n: nat)
    requires r.first.None? && n <= r.count
    ensures NameCount(r, e, n) == if n > 0 && e == 0 then 1 else 0
  {
    if n > 0 {
      UnsetCount(r, e, n - 1);
    }
  }

  lemma {:induction false} SetCount(r: Ru, e: nat, n: nat)
    requires r.first.Some? && 0 < r.count <= |r.others| + 1 && n <= r.count
    ensures |Targets(r)| == r.count && NameCount(r, e, n) == Occurrences(Targets(r)[..n], e)
  {
    if n > 0 {
      SetCount(r, e, n - 1);
      var t := Targets(r);
      assert t[..n][..n - 1] == t[..n - 1];
      assert t[n - 1] == if n == 1 then r.first.value else r.others[n - 2];
    }
  }

  lemma CountOfTargets(r: Ru, enbs: nat, e: nat)
    requires Valid(r, enbs)
    ensures Occurrences(Targets(r), e) == NameCount(r, e, r.count)
  {
    if r.count == 0 {
    } else if r.first.None? {
      UnsetCount(r, e, r.count);
      assert [0][..0] == [];
    } else {
      SetCount(r, e, r.count);
      assert Targets(r)[..r.count] == Targets(r);
    }
  }

  lemma {:induction false} CountedMeansNamed(r: Ru, e: nat, n: nat)
    ensures NameCount(r, e, n) > 0 <==> exists i: nat :: i < n && NamesAt(r, i, e)
  {
    if n > 0 {
      CountedMeansNamed(r, e, n - 1);
      if NamesAt(r, n - 1, e) {
        assert NameCount(r, e, n) > 0;
      }
      if i: nat :| i < n && NamesAt(r, i, e) && i != n - 1 {
        assert i < n - 1 && NamesAt(r, i, e);
      }
    }
  }

  /** The list of eNB `e`, in the fields of the RUs: each RU as often as entries of its list name the eNB, so
      it is there exactly if one does. */
  lemma AttachedAsNamed(list: seq<nat>, rus: seq<Ru>, enbs: nat, e: nat, ru: nat)
    requires AllValid(rus, enbs) && Attached(list, rus, enbs, e)
    ensures ru < |rus| ==> Occurrences(list, ru) == NameCount(rus[ru], e, rus[ru].count)
    ensures ru in list <==> ru < |rus| && exists i: nat :: NamesAt(rus[ru], i, e)
  {
    assert Occurrences(list, ru) == Naming(rus, enbs, ru, e);
    OccursIffIn(list, ru);
    if ru < |rus| {
      var r := rus[ru];
      assert Valid(r, enbs);
      CountOfTargets(r, enbs, e);
      CountedMeansNamed(r, e, r.count);
      if i: nat :| NamesAt(r, i, e) {
        assert i < r.count;
      }
      hide Targets, NamesAt, NameCount, Occurrences, Valid;
    }
  }

  // ------------------------------------------------------------------------- filling the tables

  /** Midway through RU number |rus|: it has been appended for the targets in `done`. */
  ghost predicate Partly(list: seq<nat>, rus: seq<Ru>, enbs: nat, e: nat, done: seq<nat>)
    requires AllValid(rus, enbs)
  {
    && Ascending(list)
    && (forall i | 0 <= i < |list| :: list[i] <= |rus|)
    && forall ru: nat ::
         Occurrences(list, ru) == if ru == |rus| then Occurrences(done, e) else Naming(rus, enbs, ru, e)
  }

  /** Appending RU number |rus| to the list of the next target keeps every list in step. */
  lemma AppendOne(list: seq<nat>, rus: seq<Ru>, enbs: nat, e: nat, done: seq<nat>, target: nat)
    requires AllValid(rus, enbs) && Partly(list, rus, enbs, e, done)
    ensures Partly(if e == target then list + [|rus|] else list, rus, enbs, e, done + [target])
  {
    var list' := if e == target then list + [|rus|] else list;
    OccurrencesAppend(done, target, e);
    forall ru: nat
      ensures Occurrences(list', ru)
           == if ru == |rus| then Occurrences(done + [target], e) else Naming(rus, enbs, ru, e)
    {
      OccurrencesAppend(list, |rus|, ru);
      assert Occurrences(list, ru) == if ru == |rus| then Occurrences(done, e) else Naming(rus, enbs, ru, e);
    }
  }

  lemma StartRu(list: seq<nat>, rus: seq<Ru>, enbs: nat, e: nat)
    requires AllValid(rus, enbs) && Attached(list, rus, enbs, e)
    ensures Partly(list, rus, enbs, e, [])
  {
    forall i | 0 <= i < |list| ensures list[i] <= |rus| {
      OccursIffIn(list, list[i]);
      assert Occurrences(list, list[i]) == Naming(rus, enbs, list[i], e);
    }
    forall ru: nat
      ensures Occurrences(list, ru) == if ru == |rus| then Occurrences([], e) else Naming(rus, enbs, ru, e)
    {
      assert Occurrences(list, ru) == Naming(rus, enbs, ru, e);
    }
  }

  lemma FinishRu(list: seq<nat>, rus: seq<Ru>, enbs: nat, e: nat, n: nat)
    requires n < |rus| && AllValid(rus, enbs) && AllValid(rus[..n], enbs)
    requires Partly(list, rus[..n], enbs, e, Targets(rus[n]))
    ensures AllValid(rus[..n + 1], enbs) && Attached(list, rus[..n + 1], enbs, e)
  {
    forall ru: nat ensures Occurrences(list, ru) == Naming(rus[..n + 1], enbs, ru, e) {
      assert Occurrences(list, ru)
          == if ru == n then Occurrences(Targets(rus[n]), e) else Naming(rus[..n], enbs, ru, e);
    }
  }

  /** The RU lists of all eNBs, each grown in place. */
  class L1Instances {
    const ruList: array<seq<nat>>

    constructor (enbs: nat)
      ensures ruList.Length == enbs && fresh(ruList)
    {
      ruList := new seq<nat>[enbs](_ => []);
    }

    /** The inner loop of init_RU, for one RU. */
    method AttachRu(ghost rus: seq<Ru>, ru: nat, targets: seq<nat>)
      requires ru == |rus| && AllValid(rus, ruList.Length)
      requires forall i | 0 <= i < |targets| :: targets[i] < ruList.Length
      requires forall e | 0 <= e < ruList.Length :: Partly(ruList[e], rus, ruList.Length, e, [])
      modifies ruList
      ensures forall e | 0 <= e < ruList.Length :: Partly(ruList[e], rus, ruList.Length, e, targets)
    {
      hide Partly, AllValid;
      var i := 0;
      assert targets[..0] == [];
      while i < |targets|
        invariant i <= |targets|
        invariant forall e | 0 <= e < ruList.Length :: Partly(ruList[e], rus, ruList.Length, e, targets[..i])
      {
        var target := targets[i];
        assert targets[..i + 1] == targets[..i] + [target];
        forall e | 0 <= e < ruList.Length
          ensures Partly(if e == target then ruList[e] + [ru] else ruList[e], rus, ruList.Length, e, targets[..i + 1])
        {
          AppendOne(ruList[e], rus, ruList.Length, e, targets[..i], target);
        }
        ruList[target] := ruList[target] + [ru];
        i := i + 1;
      }
      assert targets[..i] == targets;
    }

    /** init_RU: clears all lists, then attaches the RUs in order. */
    method InitRu(rus: seq<Ru>)
      requires ruList.Length > 0 && AllValid(rus, ruList.Length)
      modifies ruList
      ensures forall e | 0 <= e < ruList.Length :: Attached(ruList[e], rus, ruList.Length, e)
      ensures forall e: nat, ru: nat | e < ruList.Length && ru < |rus| ::
        Occurrences(ruList[e], ru) == NameCount(rus[ru], e, rus[ru].count)
    {
      var e := 0;
      while e < ruList.Length
        invariant e <= ruList.Length
        invariant forall j | 0 <= j < e :: ruList[j] == []
      {
        ruList[e] := [];
        e := e + 1;
      }
      var n := 0;
      while n < |rus|
        invariant n <= |rus| && AllValid(rus[..n], ruList.Length)
        invariant forall j | 0 <= j < ruList.Length :: Attached(ruList[j], rus[..n], ruList.Length, j)
      {
        hide Attached, Partly, Targets;
        assert Valid(rus[n], ruList.Length);
        TargetsInRange(rus[n], ruList.Length);
        forall j | 0 <= j < ruList.Length ensures Partly(ruList[j], rus[..n], ruList.Length, j, []) {
          StartRu(ruList[j], rus[..n], ruList.Length, j);
        }
        AttachRu(rus[..n], n, Targets(rus[n]));
        forall j | 0 <= j < ruList.Length ensures Attached(ruList[j], rus[..n + 1], ruList.Length, j) {
          FinishRu(ruList[j], rus, ruList.Length, j, n);
        }
        n := n + 1;
      }
      assert rus[..n] == rus;
      forall e: nat, ru: nat | e < ruList.Length && ru < |rus|
        ensures Occurrences(ruList[e], ru) == NameCount(rus[ru], e, rus[ru].count)
      {
        AttachedAsNamed(ruList[e], rus, ruList.Length, e, ru);
      }
    }
  }

  // ---------------------------------------------------------------------------- the antenna map

  /** Antenna `antenna` of the RU at position `ru` of the eNB's list. */
  datatype Port = Port(ru: nat, antenna: nat)

  function Total(nbRx: seq<nat>): nat {
    if nbRx == [] then 0 else Total(nbRx[..|nbRx| - 1]) + nbRx[|nbRx| - 1]
  }

  /** The eNB antenna a port is wired to: all antennas of earlier RUs come first. */
  function IndexOf(nbRx: seq<nat>, port: Port): nat
    requires port.ru < |nbRx|
  {
    Total(nbRx[..port.ru]) + port.antenna
  }

  predicate IsPort(nbRx: seq<nat>, port: Port) {
    port.ru < |nbRx| && port.antenna < nbRx[port.ru]
  }

  lemma {:induction false} TotalPrefix(nbRx: seq<nat>, k: nat)
    requires k < |nbRx|
    ensures Total(nbRx[..k + 1]) == Total(nbRx[..k]) + nbRx[k]
    ensures Total(nbRx[..k + 1]) <= Total(nbRx)
    decreases |nbRx|
  {
    assert nbRx[..k + 1][..k] == nbRx[..k];
    if k + 1 == |nbRx| {
      assert nbRx[..k + 1] == nbRx;
    } else {
      TotalPrefix(nbRx[..|nbRx| - 1], k);
      assert nbRx[..|nbRx| - 1][..k + 1] == nbRx[..k + 1];
    }
  }

  /** Ports get indices below the total, and no two ports the same one. */
  lemma IndexInjective(nbRx: seq<nat>, a: Port, b: Port)
    requires IsPort(nbRx, a) && IsPort(nbRx, b)
    ensures IndexOf(nbRx, a) < Total(nbRx)
    ensures IndexOf(nbRx, a) == IndexOf(nbRx, b) ==> a == b
  {
    TotalPrefix(nbRx, a.ru);
    TotalPrefix(nbRx, b.ru);
    if a.ru < b.ru {
      PrefixesGrow(nbRx, a.ru + 1, b.ru);
    } else if b.ru < a.ru {
      PrefixesGrow(nbRx, b.ru + 1, a.ru);
    }
  }

  /** The numbering in full: it starts with the first antenna of the first RU that has one, goes through the
      antennas of an RU in their order, and continues with the next RU. */
  lemma ConsecutiveIndices(nbRx: seq<nat>, r: nat, i: nat)
    requires IsPort(nbRx, Port(r, i))
    ensures r == 0 && i == 0 ==> IndexOf(nbRx, Port(r, i)) == 0
    ensures i + 1 < nbRx[r] ==> IndexOf(nbRx, Port(r, i + 1)) == IndexOf(nbRx, Port(r, i)) + 1
    ensures i + 1 == nbRx[r] && r + 1 < |nbRx| ==> IndexOf(nbRx, Port(r + 1, 0)) == IndexOf(nbRx, Port(r, i)) + 1
  {
    TotalPrefix(nbRx, r);
  }

  lemma {:induction false} PrefixesGrow(nbRx: seq<nat>, j: nat, k: nat)
    requires j <= k <= |nbRx|
    ensures Total(nbRx[..j]) <= Total(nbRx[..k])
    decreases k
  {
    if j < k {
      PrefixesGrow(nbRx, j, k - 1);
      TotalPrefix(nbRx, k - 1);
      assert nbRx[..k - 1 + 1] == nbRx[..k];
    }
  }

  /**
   * init_eNB_afterRU: counts the antennas, then wires them in two nested loops. The result is the
   * inverse of IndexOf, so the wiring is a bijection between ports and 0..nbAntennas.
   */
  method MapAntennas(nbRx: seq<nat>) returns (nbAntennas: nat, rxdataF: array<Port>)
    ensures nbAntennas == Total(nbRx) == rxdataF.Length
    ensures forall aa | 0 <= aa < rxdataF.Length ::
      IsPort(nbRx, rxdataF[aa]) && IndexOf(nbRx, rxdataF[aa]) == aa
    ensures forall port | IsPort(nbRx, port) ::
      IndexOf(nbRx, port) < rxdataF.Length && rxdataF[IndexOf(nbRx, port)] == port
  {
    nbAntennas := Count(nbRx);
    rxdataF := new Port[nbAntennas](_ => Port(0, 0));
    var ru, aa := 0, 0;
    assert nbRx[..0] == [];
    while ru < |nbRx|
      invariant ru <= |nbRx| && aa == Total(nbRx[..ru]) <= nbAntennas
      invariant Wired(nbRx, rxdataF[..], aa)
    {
      hide Wired;
      TotalPrefix(nbRx, ru);
      var i := 0;
      while i < nbRx[ru]
        invariant i <= nbRx[ru] && aa == Total(nbRx[..ru]) + i
        invariant Wired(nbRx, rxdataF[..], aa)
      {
        WireOne(nbRx, rxdataF[..], aa, Port(ru, i));
        assert rxdataF[..][aa := Port(ru, i)] == rxdataF[..aa] + [Port(ru, i)] + rxdataF[aa + 1..];
        rxdataF[aa] := Port(ru, i);
        aa, i := aa + 1, i + 1;
      }
      ru := ru + 1;
    }
    assert nbRx[..ru] == nbRx;
    assert forall k | 0 <= k < rxdataF.Length :: rxdataF[..][k] == rxdataF[k];
    forall port | IsPort(nbRx, port)
      ensures IndexOf(nbRx, port) < rxdataF.Length && rxdataF[IndexOf(nbRx, port)] == port
    {
      IndexInjective(nbRx, port, port);
      IndexInjective(nbRx, port, rxdataF[IndexOf(nbRx, port)]);
    }
  }

  method Count(nbRx: seq<nat>) returns (n: nat)
    ensures n == Total(nbRx)
  {
    n := 0;
    assert nbRx[..0] == [];
    for ru := 0 to |nbRx|
      invariant n == Total(nbRx[..ru])
    {
      TotalPrefix(nbRx, ru);
      n := n + nbRx[ru];
    }
    assert nbRx[..|nbRx|] == nbRx;
  }

  ghost predicate Wired(nbRx: seq<nat>, wiring: seq<Port>, n: nat) {
    n <= |wiring| && forall k | 0 <= k < n :: IsPort(nbRx, wiring[k]) && IndexOf(nbRx, wiring[k]) == k
  }

  lemma WireOne(nbRx: seq<nat>, wiring: seq<Port>, n: nat, port: Port)
    requires Wired(nbRx, wiring, n) && n < |wiring| && IsPort(nbRx, port) && IndexOf(nbRx, port) == n
    ensures Wired(nbRx, wiring[n := port], n + 1)
  {
  }
}
