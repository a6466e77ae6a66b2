/**
 The kernel's threads on the heap: control blocks with their three list nodes, and the 32 run queues,
 the sleep list and the wait lists linked through those nodes (kernel/sched.c, kernel/sem.c,
 include/vibe/thread.h, include/vibe/sys/list.h).
 The views `tcbs` and `contents` say what all the pointers stand for.
 */
module ThreadLists {
  import opened Seqs
  import opened IntrusiveList
  import opened SchedModel

  /** `vibe_thread_t`, as far as the scheduler uses it */
  class Thread {
    const sched: Node
    const sleep: Node
    const wait: Node
    var mode: Mode
    var priority: nat
    var base: nat
    var timeout: nat

    constructor (t: int, priority: nat)
      ensures sched.id == t && sleep.id == t && wait.id == t && sched != sleep && sched != wait && sleep != wait
      ensures fresh(sched) && fresh(sleep) && fresh(wait) && View() == Tcb(Suspended, priority, priority, 0)
    {
      sched := new Node(t);
      sleep := new Node(t);
      wait := new Node(t);
      mode, this.priority, base, timeout := Suspended, priority, priority, 0;
    }

    ghost function View(): Tcb
      reads this
    {
      Tcb(mode, priority, base, timeout)
    }
  }

  const SLEEP := 32
  const WAITS := 33            // where the wait lists begin

  /** The lists that share a node of each thread: run queues, the sleep list, wait lists */
  function Kind(k: nat): nat { if k < SLEEP then 0 else if k == SLEEP then 1 else 2 }

  /** No thread is in two lists of one kind. */
  ghost predicate Apart(contents: seq<seq<int>>)
  {
    forall j, k, t {:trigger t in contents[j], t in contents[k]} ::
      0 <= j < k < |contents| && Kind(j) == Kind(k) && t in contents[j] ==> t !in contents[k]
  }

  /** Thread `t` is in no list of the kind of list `k`. */
  ghost predicate Absent(contents: seq<seq<int>>, k: nat, t: int)
  {
    forall j {:trigger contents[j]} :: 0 <= j < |contents| && Kind(j) == Kind(k) ==> t !in contents[j]
  }

  lemma ApartAfter(contents: seq<seq<int>>, k: nat, ids: seq<int>, t: int)
    requires Apart(contents) && k < |contents|
    requires forall x :: x in ids ==> x in contents[k] || (x == t && Absent(contents, k, t))
    ensures Apart(contents[k := ids])
  {
  }

  class Store {
    const lists: seq<List>            // g_run_queues, g_sleep_list, then the wait lists
    var threads: map<int, Thread>
    ghost var tcbs: map<int, Tcb>
    ghost var contents: seq<seq<int>>
    ghost var pool: set<Node>         // all nodes
    ghost var blocks: set<Thread>     // all control blocks

    /** The node by which a thread is in list `k` */
    ghost predicate Owns(k: nat, node: Node)
      reads this`threads
    {
      node.id in threads && node == NodeOf(k, node.id)
    }

    /** List `k` is a proper list of threads' nodes. */
    ghost predicate Proper(k: nat)
      requires k < |lists|
      reads this`threads, this`pool, lists[k], lists[k].nodes
    {
      && lists[k].Valid()
      && forall i {:trigger lists[k].nodes[i]} :: 0 <= i < |lists[k].nodes| ==>
           lists[k].nodes[i] in pool && Owns(k, lists[k].nodes[i])
    }

    /** Its threads are those that `contents` says. */
    ghost predicate Shows(k: nat)
      requires k < |lists| == |contents|
      reads this`contents, lists[k]
    {
      contents[k] == Ids(lists[k].nodes)
    }

    ghost predicate Inside(k: nat)
      requires k < |lists|
      reads this`pool, lists[k]
    {
      forall i {:trigger lists[k].nodes[i]} :: 0 <= i < |lists[k].nodes| ==> lists[k].nodes[i] in pool
    }

    ghost predicate ThreadOk(t: int)
      requires t in threads && t in tcbs
      reads this`threads, this`tcbs, this`pool, threads[t]
    {
      var th := threads[t];
      && th.sched in pool && th.sleep in pool && th.wait in pool
      && th.sched.id == t && th.sleep.id == t && th.wait.id == t
      && th.sched != th.sleep && th.sched != th.wait && th.sleep != th.wait
      && tcbs[t] == th.View()
    }

    ghost predicate ListsOk()
      reads this`threads, this`contents, this`pool, lists, pool
    {
      && WAITS <= |lists| == |contents| && Apart(contents)
      && (forall j, k {:trigger lists[j], lists[k]} :: 0 <= j < k < |lists| ==> lists[j] != lists[k])
      && (forall k {:trigger Inside(k)} :: 0 <= k < |lists| ==> Inside(k))
      && (forall k {:trigger Proper(k)} :: 0 <= k < |lists| ==> Inside(k) && Proper(k))
      && (forall k {:trigger Shows(k)} :: 0 <= k < |lists| ==> Shows(k))
    }

    ghost predicate ThreadsOk()
      reads this`threads, this`tcbs, this`pool, this`blocks, blocks
    {
      && tcbs.Keys == threads.Keys
      && (forall t {:trigger threads[t]} :: t in threads ==> threads[t] in blocks)
      && (forall t {:trigger ThreadOk(t)} :: t in threads ==> ThreadOk(t))
    }

    ghost predicate Valid()
      reads this, lists, pool, blocks
    {
      ListsOk() && ThreadsOk()
    }

    /** Empty lists, `n` wait lists among them, and no threads */
    constructor (n: nat)
      ensures Valid() && threads == map[] && tcbs == map[] && contents == seq(WAITS + n, _ => [])
      ensures fresh(lists) && pool == {} && blocks == {}
    {
      var made: seq<List> := [];
      while |made| < WAITS + n
        invariant |made| <= WAITS + n
        invariant forall k :: 0 <= k < |made| ==> fresh(made[k]) && made[k].Valid() && made[k].nodes == []
        invariant forall j, k {:trigger made[j], made[k]} :: 0 <= j < k < |made| ==> made[j] != made[k]
      {
        var list := new List();
        made := made + [list];
      }
      lists := made;
      threads, tcbs := map[], map[];
      contents := seq(WAITS + n, _ => []);
      pool, blocks := {}, {};
    }

    // ---------- control blocks ----------

    /** Write a control block. */
    method Write(t: int, b: Tcb)
      requires Valid() && t in tcbs
      modifies this`tcbs, blocks
      ensures Valid() && tcbs == old(tcbs)[t := b]
    {
      hide ListsOk;
      var th := threads[t];
      forall u | u in threads && u != t
        ensures threads[u] != th
      {
        assert ThreadOk(u) && ThreadOk(t);
      }
      th.mode, th.priority, th.base, th.timeout := b.mode, b.priority, b.base, b.timeout;
      tcbs := tcbs[t := b];
      forall u | u in threads
        ensures ThreadOk(u)
      {
        assert old(ThreadOk(u));
      }
    }

    /** Read a control block. */
    method Read(t: int) returns (b: Tcb)
      requires Valid() && t in tcbs
      ensures t in threads && b == tcbs[t]
    {
      assert ThreadOk(t);
      var th := threads[t];
      b := Tcb(th.mode, th.priority, th.base, th.timeout);
    }

    /** A fresh control block, in no list */
    method Add(t: int, priority: nat)
      requires Valid() && t !in tcbs
      modifies this`threads, this`tcbs, this`pool, this`blocks
      ensures Valid() && tcbs == old(tcbs)[t := Tcb(Suspended, priority, priority, 0)]
      ensures threads.Keys == old(threads).Keys + {t}
      ensures fresh(pool - old(pool)) && fresh(blocks - old(blocks)) && pool >= old(pool) && blocks >= old(blocks)
    {
      var th := new Thread(t, priority);
      threads := threads[t := th];
      tcbs := tcbs[t := Tcb(Suspended, priority, priority, 0)];
      pool := pool + {th.sched, th.sleep, th.wait};
      blocks := blocks + {th};
      forall k | 0 <= k < |lists|
        ensures Inside(k) && Proper(k) && Shows(k)
      {
        assert old(Inside(k)) && old(Proper(k)) && old(Shows(k));
      }
      forall u | u in threads
        ensures ThreadOk(u)
      {
        assert u != t ==> old(ThreadOk(u));
      }
    }

    /**
     `vibe_thread_create` on a control block that exists: everything is wiped, the links of its nodes
     too, which are in no list.
     */
    method Renew(t: int, priority: nat)
      requires Valid() && t in tcbs
      requires Absent(contents, 0, t) && Absent(contents, SLEEP, t) && Absent(contents, WAITS, t)
      modifies this`tcbs, blocks, pool
      ensures Valid() && tcbs == old(tcbs)[t := Tcb(Suspended, priority, priority, 0)]
    {
      hide Apart, Absent;
      HasBlock(t);
      NotAnywhere(t);
      var th := threads[t];
      Wipe(th.sched);
      Wipe(th.sleep);
      Wipe(th.wait);
      Write(t, Tcb(Suspended, priority, priority, 0));
    }

    /** Node `node` is not in list `k`. */
    ghost predicate Off(k: nat, node: Node)
      requires k < |lists|
      reads lists[k]
    {
      node !in lists[k].nodes
    }

    /** `vibe_list_node_init` of a node that is in no list */
    method Wipe(node: Node)
      requires Valid() && node in pool && forall k {:trigger Off(k, node)} :: 0 <= k < |lists| ==> Off(k, node)
      modifies node
      ensures Valid()
    {
      hide Apart, ThreadsOk;
      node.prev, node.next := null, null;
      forall k | 0 <= k < |lists|
        ensures Inside(k) && Proper(k) && Shows(k)
      {
        assert old(Inside(k)) && old(Proper(k)) && old(Shows(k)) && old(Off(k, node));
      }
    }

    /** The thread has three nodes, none of them in a list. */
    lemma NotAnywhere(t: int)
      requires Valid() && t in threads && Absent(contents, 0, t) && Absent(contents, SLEEP, t)
      requires Absent(contents, WAITS, t)
      ensures threads[t].sched in pool && threads[t].sleep in pool && threads[t].wait in pool
      ensures forall k {:trigger Off(k, threads[t].sched)} :: 0 <= k < |lists| ==> Off(k, threads[t].sched)
      ensures forall k {:trigger Off(k, threads[t].sleep)} :: 0 <= k < |lists| ==> Off(k, threads[t].sleep)
      ensures forall k {:trigger Off(k, threads[t].wait)} :: 0 <= k < |lists| ==> Off(k, threads[t].wait)
    {
      assert ThreadOk(t);
      forall k, node | 0 <= k < |lists| && node in {threads[t].sched, threads[t].sleep, threads[t].wait}
        ensures Off(k, node)
      {
        if node in lists[k].nodes {
          Member(k, node);
        }
      }
    }

    // ---------- lists ----------

    /** The node by which thread `t` is in list `k` */
    function NodeOf(k: nat, t: int): Node
      requires t in threads
      reads this`threads
    {
      if k < SLEEP then threads[t].sched else if k == SLEEP then threads[t].sleep else threads[t].wait
    }

    /** List `j` shares nothing with list `k` and `node`. */
    ghost predicate Clear(j: nat, k: nat, node: Node)
      requires j < |lists| && k < |lists|
      reads lists[j], lists[k]
    {
      && lists[j] != lists[k] && node !in lists[j].nodes
      && forall i {:trigger lists[j].nodes[i]} :: 0 <= i < |lists[j].nodes| ==> lists[j].nodes[i] !in lists[k].nodes
    }

    /** A node of list `j` is the node of a thread that `contents[j]` has. */
    lemma Member(j: nat, node: Node)
      requires Valid() && j < |lists| && node in lists[j].nodes
      ensures node.id in contents[j] && Owns(j, node) && node in pool && node.id in threads
    {
      assert Inside(j) && Proper(j) && Shows(j);
      var i :| 0 <= i < |lists[j].nodes| && lists[j].nodes[i] == node;
      assert contents[j][i] == node.id;
    }

    /** No list shares a node with another. */
    lemma NoneShared(j: nat, k: nat, node: Node)
      requires Valid() && j < |lists| && k < |lists| && j != k && node in lists[j].nodes
      ensures node !in lists[k].nodes
    {
      Member(j, node);
      assert ThreadOk(node.id);
      if node in lists[k].nodes {
        Member(k, node);
      }
    }

    lemma AllClear(k: nat, t: int)
      requires Valid() && k < |lists| && t in threads && (Absent(contents, k, t) || NodeOf(k, t) in lists[k].nodes)
      ensures forall j {:trigger Clear(j, k, NodeOf(k, t))} :: 0 <= j < |lists| && j != k ==> Clear(j, k, NodeOf(k, t))
    {
      var node := NodeOf(k, t);
      assert ThreadOk(t);
      forall j | 0 <= j < |lists| && j != k
        ensures Clear(j, k, node)
      {
        assert lists[j] != lists[k];
        if node in lists[j].nodes {
          Member(j, node);
          NoneShared(j, k, node);
        }
        forall i | 0 <= i < |lists[j].nodes|
          ensures lists[j].nodes[i] !in lists[k].nodes
        {
          NoneShared(j, k, lists[j].nodes[i]);
        }
      }
    }

    lemma HasBlock(t: int)
      requires Valid()
      ensures t in tcbs <==> t in threads
    {
    }

    /** An absent thread's node is not in the list. */
    lemma NotListed(k: nat, t: int)
      requires Valid() && k < |lists| && t in threads && Absent(contents, k, t)
      ensures NodeOf(k, t) !in lists[k].nodes && NodeOf(k, t).id == t && NodeOf(k, t) in pool && Owns(k, NodeOf(k, t))
    {
      assert ThreadOk(t);
      if NodeOf(k, t) in lists[k].nodes {
        Member(k, NodeOf(k, t));
      }
    }

    /** With list `k` in order and all others as before, everything is. */
    lemma Relisted(k: nat, was: seq<seq<int>>)
      requires WAITS <= |lists| == |was| && k < |lists| && Inside(k) && Proper(k)
      requires contents == was[k := Ids(lists[k].nodes)] && Apart(contents)
      requires forall i, j {:trigger lists[i], lists[j]} :: 0 <= i < j < |lists| ==> lists[i] != lists[j]
      requires forall j {:trigger Inside(j)} :: 0 <= j < |lists| && j != k ==> Inside(j)
      requires forall j {:trigger Proper(j)} :: 0 <= j < |lists| && j != k ==>
               Inside(j) && Proper(j) && was[j] == Ids(lists[j].nodes)
      ensures ListsOk()
    {
      forall j | 0 <= j < |lists|
        ensures Inside(j) && Proper(j) && Shows(j)
      {
        assert j != k ==> Proper(j);
      }
    }

    /** `vibe_list_peek_head`: the thread at the head of list `k`, or NULL */
    method Head(k: nat) returns (t: int)
      requires Valid() && k < |lists|
      ensures contents[k] == [] ==> t == NULL
      ensures contents[k] != [] ==> t == contents[k][0]
    {
      assert Proper(k) && Shows(k);
      t := if lists[k].head == null then NULL else lists[k].head.id;
    }

    /** `vibe_list_count` */
    method Count(k: nat) returns (n: int)
      requires Valid() && k < |lists|
      ensures n == |contents[k]|
    {
      assert Proper(k) && Shows(k);
      n := lists[k].count;
    }

    /** `vibe_list_append` of a thread's node to list `k` */
    method Append(k: nat, t: int)
      requires Valid() && k < |lists| && t in tcbs && Absent(contents, k, t)
      modifies this`contents, lists, pool
      ensures Valid() && contents == old(contents)[k := old(contents)[k] + [t]]
      ensures forall j {:trigger lists[j]} :: 0 <= j < |lists| && j != k ==> lists[j].nodes == old(lists[j].nodes)
    {
      hide ThreadsOk, Apart, Absent, NoDup;
      HasBlock(t);
      var node := NodeOf(k, t);
      NotListed(k, t);
      AllClear(k, t);
      ApartAfter(contents, k, contents[k] + [t], t);
      assert Inside(k) && Proper(k) && Shows(k);
      ghost var before := contents;
      lists[k].Append(node);
      forall j | 0 <= j < |lists| && j != k
        ensures Inside(j) && Proper(j) && lists[j].nodes == old(lists[j].nodes) && before[j] == Ids(lists[j].nodes)
      {
        assert old(Inside(j)) && old(Proper(j)) && old(Shows(j)) && old(Clear(j, k, node));
      }
      contents := before[k := before[k] + [t]];
      assert contents[k] == Ids(lists[k].nodes);
      Relisted(k, before);
    }

    /** The listed nodes are distinct threads'. */
    lemma DistinctIds(k: nat)
      requires Valid() && k < |lists|
      ensures NoDup(lists[k].nodes) && NoDup(contents[k]) && contents[k] == Ids(lists[k].nodes)
    {
      assert Proper(k) && Shows(k);
      forall i, j | 0 <= i < j < |contents[k]|
        ensures contents[k][i] != contents[k][j]
      {
        assert Owns(k, lists[k].nodes[i]) && Owns(k, lists[k].nodes[j]);
      }
    }

    /** Where a listed thread's node is */
    lemma Position(k: nat, t: int) returns (i: nat)
      requires Valid() && k < |lists| && t in contents[k]
      ensures t in threads && i < |lists[k].nodes| == |contents[k]| && lists[k].nodes[i] == NodeOf(k, t)
      ensures contents[k][i] == t
    {
      assert Proper(k) && Shows(k);
      i :| 0 <= i < |contents[k]| && contents[k][i] == t;
      assert Owns(k, lists[k].nodes[i]);
    }

    lemma IdsWithout(nodes: seq<Node>, i: nat)
      requires i < |nodes| && NoDup(nodes) && NoDup(Ids(nodes))
      ensures var rest := Without(nodes, nodes[i]);
              && Without(Ids(nodes), nodes[i].id) == Ids(rest) && |rest| == |nodes| - 1
              && forall j {:trigger rest[j]} :: 0 <= j < |rest| ==> rest[j] == nodes[if j < i then j else j + 1]
    {
      hide Without;
      WithoutIndex(nodes, i);
      WithoutIndex(Ids(nodes), i);
    }

    /** `vibe_list_remove` of a thread's node from list `k` */
    method Remove(k: nat, t: int)
      requires Valid() && k < |lists| && t in contents[k]
      modifies this`contents, lists, pool
      ensures Valid() && contents == old(contents)[k := Without(old(contents)[k], t)] && t in threads
      ensures forall j {:trigger lists[j]} :: 0 <= j < |lists| && j != k ==> lists[j].nodes == old(lists[j].nodes)
      ensures lists[k].nodes == Without(old(lists[k].nodes), NodeOf(k, t))
    {
      hide ThreadsOk, Apart, Without, NoDup;
      ghost var i := Position(k, t);
      var node := NodeOf(k, t);
      AllClear(k, t);
      DistinctIds(k);
      IdsWithout(lists[k].nodes, i);
      WithoutMembers(contents[k], t);
      ApartAfter(contents, k, Without(contents[k], t), t);
      assert Inside(k) && Proper(k);
      ghost var before := contents;
      lists[k].Remove(node);
      forall j | 0 <= j < |lists| && j != k
        ensures Inside(j) && Proper(j) && lists[j].nodes == old(lists[j].nodes) && before[j] == Ids(lists[j].nodes)
      {
        assert old(Inside(j)) && old(Proper(j)) && old(Shows(j)) && old(Clear(j, k, node));
      }
      contents := before[k := Without(before[k], t)];
      Relisted(k, before);
    }

    lemma IdsInsert(nodes: seq<Node>, i: nat, node: Node)
      requires i <= |nodes|
      ensures var more := nodes[..i] + [node] + nodes[i..];
              && Ids(more) == Ids(nodes)[..i] + [node.id] + Ids(nodes)[i..]
              && forall j {:trigger more[j]} :: 0 <= j < |more| ==>
                   more[j] == if j < i then nodes[j] else if j == i then node else nodes[j - 1]
    {
    }

    /**
     Link a node into the sleep list, in front of the one at `i` if there is one: append, insert
     after its predecessor, or prepend.
     */
    method LinkBefore(later: Node?, node: Node, ghost i: nat)
      requires SLEEP < |lists| && lists[SLEEP].Valid()
      requires i <= |lists[SLEEP].nodes| && later == Nth(lists[SLEEP].nodes, i) && node !in lists[SLEEP].nodes
      modifies lists[SLEEP], node, lists[SLEEP].nodes
      ensures lists[SLEEP].Valid()
      ensures lists[SLEEP].nodes == old(lists[SLEEP].nodes)[..i] + [node] + old(lists[SLEEP].nodes)[i..]
    {
      var list := lists[SLEEP];
      ghost var was := list.nodes;
      if later == null {
        list.Append(node);
        assert was + [node] == was[..i] + [node] + was[i..];
      } else {
        assert Linked(was, i);
        if later.prev != null {
          list.InsertAfter(later.prev, node, i - 1);
        } else {
          list.Prepend(node);
          assert [node] + was == was[..i] + [node] + was[i..];
        }
      }
    }

    /** The scan of `_vibe_sched_sleep`, node by node, for the first sleeper that expires later */
    method FindLater(expiry: nat) returns (node: Node?, ghost i: nat)
      requires Valid()
      ensures |contents[SLEEP]| == |lists[SLEEP].nodes| && i <= |lists[SLEEP].nodes|
      ensures node == Nth(lists[SLEEP].nodes, i)
      ensures forall j :: 0 <= j < |contents[SLEEP]| ==> contents[SLEEP][j] in tcbs
      ensures forall j :: 0 <= j < i ==> tcbs[contents[SLEEP][j]].timeout <= expiry
      ensures i < |contents[SLEEP]| ==> expiry < tcbs[contents[SLEEP][i]].timeout
    {
      node := lists[SLEEP].head;
      i := 0;
      SleepersKnown();
      while node != null
        invariant 0 <= i <= |lists[SLEEP].nodes| && node == Nth(lists[SLEEP].nodes, i)
        invariant forall j :: 0 <= j < i ==> tcbs[contents[SLEEP][j]].timeout <= expiry
        decreases |lists[SLEEP].nodes| - i
      {
        SleeperAt(i);
        if expiry < threads[node.id].timeout {
          return;
        }
        node := node.next;
        i := i + 1;
      }
    }

    /** Every sleeper has a control block. */
    lemma SleepersKnown()
      requires Valid()
      ensures |contents[SLEEP]| == |lists[SLEEP].nodes| && lists[SLEEP].head == Nth(lists[SLEEP].nodes, 0)
      ensures forall j :: 0 <= j < |contents[SLEEP]| ==> contents[SLEEP][j] in tcbs
    {
      assert Proper(SLEEP) && Shows(SLEEP);
      forall j | 0 <= j < |contents[SLEEP]|
        ensures contents[SLEEP][j] in tcbs
      {
        assert Owns(SLEEP, lists[SLEEP].nodes[j]);
      }
    }

    /** The control block and the successor of the sleeper at `i` */
    lemma SleeperAt(i: nat)
      requires Valid() && i < |lists[SLEEP].nodes|
      ensures var node := lists[SLEEP].nodes[i];
              && i < |contents[SLEEP]| && node.id == contents[SLEEP][i] && node.id in threads && node.id in tcbs
              && threads[node.id].timeout == tcbs[node.id].timeout && node.next == Nth(lists[SLEEP].nodes, i + 1)
              && threads[node.id].sleep == node
    {
      assert Proper(SLEEP) && Shows(SLEEP) && Linked(lists[SLEEP].nodes, i);
      var node := lists[SLEEP].nodes[i];
      assert Owns(SLEEP, node) && ThreadOk(node.id);
    }

    method PlaceSleeper(later: Node?, t: int, ghost i: nat)
      requires Valid() && t in tcbs && Absent(contents, SLEEP, t)
      requires i <= |lists[SLEEP].nodes| && later == Nth(lists[SLEEP].nodes, i)
      modifies this`contents, lists, pool
      ensures i <= |old(contents)[SLEEP]|
      ensures Valid() && contents == old(contents)[SLEEP := old(contents)[SLEEP][..i] + [t] + old(contents)[SLEEP][i..]]
    {
      hide ThreadsOk, Apart, Absent, NoDup;
      HasBlock(t);
      var node := NodeOf(SLEEP, t);
      NotListed(SLEEP, t);
      AllClear(SLEEP, t);
      assert Inside(SLEEP) && Proper(SLEEP) && Shows(SLEEP);
      ghost var before, was := contents, lists[SLEEP].nodes;
      ghost var ids := before[SLEEP][..i] + [t] + before[SLEEP][i..];
      ApartAfter(before, SLEEP, ids, t);
      IdsInsert(was, i, node);
      LinkBefore(later, node, i);
      forall j | 0 <= j < |lists| && j != SLEEP
        ensures Inside(j) && Proper(j) && before[j] == Ids(lists[j].nodes)
      {
        assert old(Inside(j)) && old(Proper(j)) && old(Shows(j)) && old(Clear(j, SLEEP, node));
      }
      contents := before[SLEEP := ids];
      Relisted(SLEEP, before);
    }
  }
}
