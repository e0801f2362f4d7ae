/**
 * The filter registry of filter.c: an append-only singly-linked list of
 * filter descriptors, threaded through each descriptor's `next` field and
 * anchored by the `first_filter` / `last_filter` globals.
 */
module Registry {

  /**
   * A filter descriptor (struct Filter of filter.h). The hook pointers are
   * reduced to whether `init` and `fini` are present; what the hooks do is
   * modelled per stage. Only `next` is ever written.
   */
  class Filter {
    const name: string
    const hasInit: bool
    const hasFini: bool
    var next: Filter?

    constructor (name: string, hasInit: bool, hasFini: bool)
      ensures this.name == name && this.hasInit == hasInit && this.hasFini == hasFini
      ensures next == null
    {
      this.name := name;
      this.hasInit := hasInit;
      this.hasFini := hasFini;
      next := null;
    }
  }

  /** The first descriptor of ns whose name equals key, or null. */
  function Lookup(ns: seq<Filter>, key: string): Filter?
  {
    if ns == [] then null
    else if ns[0].name == key then ns[0]
    else Lookup(ns[1..], key)
  }

  function Names(ns: seq<Filter>): (names: seq<string>)
    ensures |names| == |ns|
    ensures forall i :: 0 <= i < |ns| ==> names[i] == ns[i].name
  {
    if ns == [] then [] else [ns[0].name] + Names(ns[1..])
  }

  /**
   * Lookup returns null exactly when no descriptor carries the key, and
   * otherwise the descriptor at the first index that does.
   */
  lemma {:induction false} LookupIsFirstMatch(ns: seq<Filter>, key: string)
    ensures Lookup(ns, key) == null <==> key !in Names(ns)
    ensures Lookup(ns, key) != null ==>
      exists i :: 0 <= i < |ns| && ns[i] == Lookup(ns, key) && ns[i].name == key &&
        forall j :: 0 <= j < i ==> ns[j].name != key
  {
    if ns != [] && ns[0].name != key {
      LookupIsFirstMatch(ns[1..], key);
      assert Names(ns) == [ns[0].name] + Names(ns[1..]);
      if Lookup(ns, key) != null {
        var i :| 0 <= i < |ns[1..]| && ns[1..][i] == Lookup(ns, key) && ns[1..][i].name == key &&
          forall j :: 0 <= j < i ==> ns[1..][j].name != key;
        assert ns[i + 1] == Lookup(ns, key);
        assert forall j :: 0 <= j < i + 1 ==> ns[j].name != key by {
          forall j | 0 <= j < i + 1 ensures ns[j].name != key {
            if j > 0 { assert ns[j] == ns[1..][j - 1]; }
          }
        }
      }
    } else if ns != [] {
      assert ns[0].name in Names(ns);
    }
  }

  /** The names filter_register_all registers, in registration order. */
  const RegisteredNames: seq<string> := ["av", "cap", "file", "pipe", "repeat", "stat"]

  /**
   * With the registry filter_register_all builds, every registered name is
   * found at its own position, and "tcp" is not found although a tcp
   * descriptor exists.
   */
  lemma RegisteredLookups(ns: seq<Filter>)
    requires Names(ns) == RegisteredNames
    ensures Lookup(ns, "av") == ns[0]
    ensures Lookup(ns, "cap") == ns[1]
    ensures Lookup(ns, "file") == ns[2]
    ensures Lookup(ns, "pipe") == ns[3]
    ensures Lookup(ns, "repeat") == ns[4]
    ensures Lookup(ns, "stat") == ns[5]
    ensures Lookup(ns, "tcp") == null
  {
    RegisteredInitials(ns);
    LookupAt(ns, 0);
    LookupAt(ns, 1);
    LookupAt(ns, 2);
    LookupAt(ns, 3);
    LookupAt(ns, 4);
    LookupAt(ns, 5);
    LookupIsFirstMatch(ns, "tcp");
    forall k | 0 <= k < |ns| ensures Names(ns)[k] != "tcp" {
      assert Names(ns)[k][0] == ns[k].name[0];
    }
  }

  /** The registered names start with pairwise different letters. */
  lemma RegisteredInitials(ns: seq<Filter>)
    requires Names(ns) == RegisteredNames
    ensures |ns| == 6
    ensures |ns[0].name| > 0 && ns[0].name[0] == 'a'
    ensures |ns[1].name| > 0 && ns[1].name[0] == 'c'
    ensures |ns[2].name| > 0 && ns[2].name[0] == 'f'
    ensures |ns[3].name| > 0 && ns[3].name[0] == 'p'
    ensures |ns[4].name| > 0 && ns[4].name[0] == 'r'
    ensures |ns[5].name| > 0 && ns[5].name[0] == 's'
  {
    assert ns[0].name == Names(ns)[0] == "av";
    assert ns[1].name == Names(ns)[1] == "cap";
    assert ns[2].name == Names(ns)[2] == "file";
    assert ns[3].name == Names(ns)[3] == "pipe";
    assert ns[4].name == Names(ns)[4] == "repeat";
    assert ns[5].name == Names(ns)[5] == "stat";
  }

  /** A descriptor whose name no earlier descriptor carries is the one Lookup finds. */
  lemma {:induction false} LookupAt(ns: seq<Filter>, i: nat)
    requires i < |ns|
    requires forall j :: 0 <= j < i ==> ns[j].name != ns[i].name
    ensures Lookup(ns, ns[i].name) == ns[i]
  {
    if i > 0 {
      assert ns[1..][i - 1] == ns[i];
      forall j | 0 <= j < i - 1 ensures ns[1..][j].name != ns[i].name {
        assert ns[1..][j] == ns[j + 1];
      }
      LookupAt(ns[1..], i - 1);
    }
  }

  /** The descriptors the stage files define (the `x_filter` globals). */
  class Descriptors {
    const av: Filter
    const cap: Filter
    const file: Filter
    const pipe: Filter
    const repeat: Filter
    const stat: Filter
    const tcp: Filter

    /** Names and hook presence as the `Filter x_filter = { … }` initialisers give them. */
    constructor ()
      ensures AsDeclared() && Unlinked() && Distinct()
      ensures fresh(av) && fresh(cap) && fresh(file) && fresh(pipe)
      ensures fresh(repeat) && fresh(stat) && fresh(tcp)
    {
      av := new Filter("av", false, true);
      cap := new Filter("cap", true, true);
      file := new Filter("file", true, true);
      pipe := new Filter("pipe", true, false);
      repeat := new Filter("repeat", true, true);
      stat := new Filter("stat", true, true);
      tcp := new Filter("tcp", true, true);
    }

    /** Names and hook presence of each descriptor. */
    predicate AsDeclared()
    {
      av.name == "av" && !av.hasInit && av.hasFini &&
      cap.name == "cap" && cap.hasInit && cap.hasFini &&
      file.name == "file" && file.hasInit && file.hasFini &&
      pipe.name == "pipe" && pipe.hasInit && !pipe.hasFini &&
      repeat.name == "repeat" && repeat.hasInit && repeat.hasFini &&
      stat.name == "stat" && stat.hasInit && stat.hasFini &&
      tcp.name == "tcp" && tcp.hasInit && tcp.hasFini
    }

    function All(): seq<Filter> { [av, cap, file, pipe, repeat, stat, tcp] }

    predicate Distinct()
    {
      forall i, j :: 0 <= i < j < |All()| ==> All()[i] != All()[j]
    }

    ghost predicate Unlinked()
      reads av, cap, file, pipe, repeat, stat, tcp
    {
      av.next == null && cap.next == null && file.next == null && pipe.next == null &&
      repeat.next == null && stat.next == null && tcp.next == null
    }
  }

  class FilterList {
    var first: Filter?
    var last: Filter?
    /** The descriptors reachable from `first`, in list order. */
    ghost var nodes: seq<Filter>

    ghost predicate Valid()
      reads this, nodes
    {
      (first == null <==> nodes == []) &&
      (last == null <==> nodes == []) &&
      (nodes != [] ==> first == nodes[0] && last == nodes[|nodes| - 1] && last.next == null) &&
      (forall i :: 0 <= i < |nodes| - 1 ==> nodes[i].next == nodes[i + 1]) &&
      (forall i, j :: 0 <= i < j < |nodes| ==> nodes[i] != nodes[j])
    }

    /** The static initialisers: both anchors NULL. */
    constructor ()
      ensures Valid() && nodes == []
    {
      first, last := null, null;
      nodes := [];
    }

    /**
     * register_filter: link f after the current tail (or make it the whole
     * list). `next` is never reset, so f must be unlinked and not yet in the
     * list: registering the tail again would make it its own successor.
     */
    method RegisterFilter(f: Filter)
      requires Valid() && f !in nodes && f.next == null
      modifies this, nodes
      ensures Valid()
      ensures nodes == old(nodes) + [f]
      ensures first == (if old(first) == null then f else old(first))
      ensures last == f
    {
      if last != null {
        last.next := f;
        last := f;
      } else {
        first := f;
        last := f;
      }
      nodes := nodes + [f];
    }

    /**
     * find_filter: walk from `first` and stop at the first exact name match.
     */
    method FindFilter(name: string) returns (r: Filter?)
      requires Valid()
      ensures r == Lookup(nodes, name)
      ensures r == null <==> name !in Names(nodes)
      ensures r != null ==> r in nodes && r.name == name
    {
      var p := first;
      ghost var i := 0;
      while p != null && p.name != name
        invariant 0 <= i <= |nodes|
        invariant p == (if i < |nodes| then nodes[i] else null)
        invariant Lookup(nodes[i..], name) == Lookup(nodes, name)
        decreases |nodes| - i
      {
        assert nodes[i..][1..] == nodes[i + 1..];
        p := p.next;
        i := i + 1;
      }
      r := p;
      LookupIsFirstMatch(nodes, name);
      if p == null {
        assert nodes[i..] == [];
      }
    }

    /**
     * filter_register_all: register av, cap, file, pipe, repeat and stat, in
     * that order, into the empty registry. tcp is not registered.
     */
    method RegisterAll(ds: Descriptors)
      requires Valid() && nodes == [] && ds.AsDeclared() && ds.Unlinked() && ds.Distinct()
      modifies this, ds.av, ds.cap, ds.file, ds.pipe, ds.repeat
      ensures Valid()
      ensures nodes == [ds.av, ds.cap, ds.file, ds.pipe, ds.repeat, ds.stat]
      ensures Names(nodes) == RegisteredNames
    {
      ghost var all := ds.All();
      assert all[0] != all[1];
      assert all[0] != all[2] && all[1] != all[2];
      assert all[0] != all[3] && all[1] != all[3] && all[2] != all[3];
      assert all[0] != all[4] && all[1] != all[4] && all[2] != all[4] && all[3] != all[4];
      assert all[0] != all[5] && all[1] != all[5] && all[2] != all[5] && all[3] != all[5] && all[4] != all[5];
      RegisterFilter(ds.av);
      RegisterFilter(ds.cap);
      RegisterFilter(ds.file);
      RegisterFilter(ds.pipe);
      RegisterFilter(ds.repeat);
      RegisterFilter(ds.stat);
      assert Names(nodes) == RegisteredNames;
    }
  }
}
