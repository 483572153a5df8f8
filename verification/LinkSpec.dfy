/** Intrusive doubly linked lists that share one pair of link fields per thread. */
module LinkSpec {
  import opened Basics

  type Id = nat

  datatype Links = Links(prev: Option<Id>, next: Option<Id>)

  type Memory = map<Id, Links>

  ghost predicate LinkedAt(mem: Memory, s: seq<Id>, i: nat)
    requires i < |s|
  {
    s[i] in mem && mem[s[i]] == Links(At(s, i - 1), At(s, i + 1))
  }

  /** The links of s's members describe s. */
  ghost predicate Chain(mem: Memory, s: seq<Id>) {
    NoDup(s) && forall i :: 0 <= i < |s| ==> LinkedAt(mem, s, i)
  }

  function Inserted(s: seq<Id>, i: nat, t: Id): seq<Id>
    requires i <= |s|
  {
    s[..i] + [t] + s[i..]
  }

  function SetNext(mem: Memory, a: Option<Id>, next: Option<Id>): Memory {
    if a.Some? && a.value in mem then mem[a.value := mem[a.value].(next := next)] else mem
  }

  function SetPrev(mem: Memory, a: Option<Id>, prev: Option<Id>): Memory {
    if a.Some? && a.value in mem then mem[a.value := mem[a.value].(prev := prev)] else mem
  }

  /** The stores that splice t in before position i. */
  function Splice(mem: Memory, s: seq<Id>, i: nat, t: Id): Memory
    requires i <= |s|
  {
    var before, after := At(s, i - 1), At(s, i);
    SetPrev(SetNext(mem, before, Some(t)), after, Some(t))[t := Links(before, after)]
  }

  /** The stores that bypass position i. */
  function Bypass(mem: Memory, s: seq<Id>, i: nat): Memory
    requires i < |s|
  {
    var before, after := At(s, i - 1), At(s, i + 1);
    SetPrev(SetNext(mem, before, after), after, before)
  }

  /** All lists at once; `home` says which list a thread is on. */
  ghost predicate ListOk(mem: Memory, s: seq<Id>, home: map<Id, nat>, k: nat) {
    Chain(mem, s) && forall t <- s :: t in home && home[t] == k
  }

  ghost predicate Inv(mem: Memory, lists: seq<seq<Id>>, home: map<Id, nat>) {
    && (forall k :: 0 <= k < |lists| ==> ListOk(mem, lists[k], home, k))
    && (forall t <- home :: home[t] < |lists| && t in lists[home[t]])
  }

  /** No thread is on two lists. */
  lemma ListsDisjoint(mem: Memory, lists: seq<seq<Id>>, home: map<Id, nat>, j: nat, k: nat, t: Id)
    requires Inv(mem, lists, home) && j < |lists| && k < |lists|
    requires t in lists[j] && t in lists[k]
    ensures j == k
  {
    assert ListOk(mem, lists[j], home, j) && ListOk(mem, lists[k], home, k);
  }

  lemma ChainFrame(mem: Memory, mem': Memory, s: seq<Id>)
    requires Chain(mem, s)
    requires forall t <- s :: t in mem' && t in mem && mem'[t] == mem[t]
    ensures Chain(mem', s)
  {
    forall i | 0 <= i < |s|
      ensures LinkedAt(mem', s, i)
    {
      assert LinkedAt(mem, s, i) && s[i] in s;
    }
  }

  lemma SpliceChain(mem: Memory, s: seq<Id>, i: nat, t: Id)
    requires Chain(mem, s) && i <= |s| && t !in s
    ensures Chain(Splice(mem, s, i, t), Inserted(s, i, t))
  {
    var r, m := Inserted(s, i, t), Splice(mem, s, i, t);
    forall j | 0 <= j < |r|
      ensures LinkedAt(m, r, j)
    {
      if j < i {
        assert LinkedAt(mem, s, j);
      } else if j > i {
        assert LinkedAt(mem, s, j - 1);
      }
    }
  }

  /** The links of t are of no concern. */
  ghost predicate SameBut(mem: Memory, mem': Memory, t: Id) {
    mem'.Keys == mem.Keys && forall u <- mem :: u != t ==> mem'[u] == mem[u]
  }

  lemma BypassChain(mem: Memory, s: seq<Id>, i: nat, mem': Memory)
    requires Chain(mem, s) && i < |s| && SameBut(Bypass(mem, s, i), mem', s[i])
    ensures Chain(mem', RemoveAt(s, i))
  {
    var r := RemoveAt(s, i);
    forall j | 0 <= j < |r|
      ensures LinkedAt(mem', r, j)
    {
      if j < i {
        assert LinkedAt(mem, s, j);
      } else {
        assert LinkedAt(mem, s, j + 1);
      }
    }
  }

  /** The stores touch members of the list only. */
  lemma StoresStayInside(mem: Memory, s: seq<Id>, i: nat, t: Id, u: Id)
    requires u in mem && u !in s && u != t
    ensures i <= |s| ==> u in Splice(mem, s, i, t) && Splice(mem, s, i, t)[u] == mem[u]
    ensures i < |s| ==> u in Bypass(mem, s, i) && Bypass(mem, s, i)[u] == mem[u]
  {
  }

  lemma OtherListKept(mem: Memory, lists: seq<seq<Id>>, home: map<Id, nat>, k: nat, j: nat,
                      mem': Memory, home': map<Id, nat>, t: Id)
    requires Inv(mem, lists, home) && k < |lists| && j < |lists| && j != k && t !in lists[j]
    requires forall u :: u in mem && u !in lists[k] && u != t ==> u in mem' && mem'[u] == mem[u]
    requires forall u :: u != t && u in home ==> u in home' && home'[u] == home[u]
    ensures ListOk(mem', lists[j], home', j)
  {
    var s := lists[j];
    assert ListOk(mem, s, home, j);
    forall u <- s
      ensures u in mem && u in mem' && mem'[u] == mem[u]
    {
      var i :| 0 <= i < |s| && s[i] == u;
      assert LinkedAt(mem, s, i);
      if u in lists[k] {
        ListsDisjoint(mem, lists, home, j, k, u);
      }
    }
    ChainFrame(mem, mem', s);
  }

  lemma SpliceKeepsInv(mem: Memory, lists: seq<seq<Id>>, home: map<Id, nat>, k: nat, i: nat, t: Id)
    requires Inv(mem, lists, home) && k < |lists| && i <= |lists[k]| && t !in home
    ensures Inv(Splice(mem, lists[k], i, t), lists[k := Inserted(lists[k], i, t)], home[t := k])
  {
    var s := lists[k];
    var mem', lists', home' := Splice(mem, s, i, t), lists[k := Inserted(s, i, t)], home[t := k];
    assert ListOk(mem, s, home, k);
    SpliceChain(mem, s, i, t);
    forall u | u in mem && u !in s && u != t
      ensures u in mem' && mem'[u] == mem[u]
    {
      StoresStayInside(mem, s, i, t, u);
    }
    forall j | 0 <= j < |lists'|
      ensures ListOk(mem', lists'[j], home', j)
    {
      assert ListOk(mem, lists[j], home, j);
      if j != k {
        OtherListKept(mem, lists, home, k, j, mem', home', t);
      }
    }
  }

  lemma BypassKeepsInv(mem: Memory, lists: seq<seq<Id>>, home: map<Id, nat>, k: nat, i: nat, mem': Memory)
    requires Inv(mem, lists, home) && k < |lists| && i < |lists[k]|
    requires SameBut(Bypass(mem, lists[k], i), mem', lists[k][i])
    ensures Inv(mem', lists[k := RemoveAt(lists[k], i)], home - {lists[k][i]})
  {
    var s, t := lists[k], lists[k][i];
    var lists', home' := lists[k := RemoveAt(s, i)], home - {t};
    assert ListOk(mem, s, home, k);
    BypassChain(mem, s, i, mem');
    forall u | u in mem && u !in s && u != t
      ensures u in mem' && mem'[u] == mem[u]
    {
      StoresStayInside(mem, s, i, t, u);
    }
    forall j | 0 <= j < |lists'|
      ensures ListOk(mem', lists'[j], home', j)
    {
      assert ListOk(mem, lists[j], home, j);
      if j != k {
        OtherListKept(mem, lists, home, k, j, mem', home', t);
      }
    }
    forall u <- home'
      ensures home'[u] < |lists'| && u in lists'[home'[u]]
    {
      if home[u] == k {
        var j :| 0 <= j < |s| && s[j] == u;
        assert RemoveAt(s, i)[if j < i then j else j - 1] == u;
      }
    }
  }
}
