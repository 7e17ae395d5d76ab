/**
 * The ownership task queue of main.js:296-314 (`processTasks`). Objects
 * found by a rights scan wait in `_tasks`; at most one of them is handled at
 * a time, guarded by `_running`. Handling an object whose owner is not the
 * configured default user writes it back with that owner; an object that
 * already has the right owner is skipped. Either way the completion
 * callback clears the flag and takes the next object.
 */
module Tasks {
  import opened Wrappers

  /**
   * The access-control record of a stored object; `others` are its numeric
   * permission entries (object, state, file). `ownerGroup` is not modelled:
   * like `others`, the code only carries it over.
   */
  datatype Acl = Acl(owner: string, others: map<string, int>)

  /** A stored object document; `body` stands for every property this core does not look at. */
  datatype Obj = Obj(id: string, objType: string, acl: Option<Acl>, body: string)

  /** One `setForeignObject(id, doc)` call issued to the object store. */
  datatype Write = Write(id: string, doc: Obj)

  /** `obj` with `acl.owner` set to `user`; nothing else changes. */
  function WithOwner(obj: Obj, user: string): (r: Obj)
    requires obj.acl.Some?
    ensures r.acl.Some? && r.acl.value.owner == user
    ensures r.id == obj.id && r.objType == obj.objType && r.body == obj.body
    ensures r.acl.value.others == obj.acl.value.others
  {
    obj.(acl := Some(obj.acl.value.(owner := user)))
  }

  /** What handling one dequeued object leads to. */
  datatype Outcome = Rewrite(w: Write) | Skip | TypeError

  /**
   * main.js:301-302 as written: the write branch is taken when the object has
   * no `acl` or a different owner, and then assigns into `obj.acl.owner`,
   * which throws when `acl` is absent.
   */
  function HandleAsWritten(obj: Obj, user: string): (r: Outcome)
    ensures r.TypeError? <==> obj.acl.None?
    ensures r.Skip? <==> obj.acl.Some? && obj.acl.value.owner == user
    ensures r.Rewrite? ==> obj.acl.Some? && r.w == Write(obj.id, WithOwner(obj, user))
  {
    if obj.acl.None? || obj.acl.value.owner != user then
      if obj.acl.None? then TypeError else Rewrite(Write(obj.id, WithOwner(obj, user)))
    else Skip
  }

  /**
   * Handling of one dequeued object as the model uses it: an object without
   * an `acl` is given one that names `user` as owner; otherwise the same as
   * the source.
   */
  function Handle(obj: Obj, user: string): (r: Outcome)
    ensures !r.TypeError?
    ensures r.Skip? <==> obj.acl.Some? && obj.acl.value.owner == user
    ensures r.Rewrite? ==> r.w.id == obj.id && r.w.doc.acl.Some? && r.w.doc.acl.value.owner == user
    ensures r.Rewrite? ==> r.w.doc.(acl := obj.acl) == obj
    ensures obj.acl.Some? ==> r == HandleAsWritten(obj, user)
    ensures obj.acl.None? ==> r.Rewrite? && r.w.doc.acl == Some(Acl(user, map[]))
  {
    if obj.acl.None? then Rewrite(Write(obj.id, obj.(acl := Some(Acl(user, map[])))))
    else HandleAsWritten(obj, user)
  }

  /** The writes issued for `objs` when they are handled in order. */
  function Rewrites(objs: seq<Obj>, user: string): seq<Write>
  {
    if objs == [] then []
    else
      var last := Handle(objs[|objs| - 1], user);
      Rewrites(objs[..|objs| - 1], user) + (if last.Rewrite? then [last.w] else [])
  }

  lemma {:induction false} RewritesAppend(a: seq<Obj>, b: seq<Obj>, user: string)
    ensures Rewrites(a + b, user) == Rewrites(a, user) + Rewrites(b, user)
    decreases |b|
  {
    if b == [] {
      assert a + b == a;
    } else {
      assert (a + b)[..|a + b| - 1] == a + b[..|b| - 1];
      RewritesAppend(a, b[..|b| - 1], user);
    }
  }

  /**
   * The writes are exactly the needed owner changes: every write sets the
   * owner to `user` and changes nothing else of one of the handled objects,
   * which did not have that owner, and every handled object without that
   * owner is written. The order of the writes follows from `RewritesAppend`.
   */
  lemma {:induction false} RewritesAreOwnerChanges(objs: seq<Obj>, user: string)
    ensures |Rewrites(objs, user)| <= |objs|
    ensures forall w :: w in Rewrites(objs, user) ==>
      w.doc.acl.Some? && w.doc.acl.value.owner == user &&
      exists o :: o in objs && w.id == o.id && w.doc.(acl := o.acl) == o &&
        (o.acl.None? || o.acl.value.owner != user) &&
        (o.acl.Some? ==> w.doc == WithOwner(o, user)) &&
        (o.acl.None? ==> w.doc.acl == Some(Acl(user, map[])))
    ensures forall o :: o in objs && (o.acl.None? || o.acl.value.owner != user) ==>
      Handle(o, user).Rewrite? && Handle(o, user).w in Rewrites(objs, user)
  {
    if objs != [] {
      var init := objs[..|objs| - 1];
      var last := objs[|objs| - 1];
      RewritesAreOwnerChanges(init, user);
      assert forall o :: o in init ==> o in objs;
      assert objs == init + [last];
      forall o | o in objs && (o.acl.None? || o.acl.value.owner != user)
        ensures Handle(o, user).w in Rewrites(objs, user)
      {
        if o != last {
          assert o in init;
        }
      }
    }
  }

  /** Objects that already belong to `user` give rise to no write at all. */
  lemma {:induction false} RewritesIdempotent(objs: seq<Obj>, user: string)
    requires forall i :: 0 <= i < |objs| ==> objs[i].acl.Some? && objs[i].acl.value.owner == user
    ensures Rewrites(objs, user) == []
  {
    if objs != [] {
      RewritesIdempotent(objs[..|objs| - 1], user);
    }
  }

  /** Handling the written documents again issues nothing: one pass settles ownership. */
  lemma {:induction false} RewritesSettle(objs: seq<Obj>, user: string)
    ensures Rewrites(Docs(Rewrites(objs, user)), user) == []
  {
    RewritesAreOwnerChanges(objs, user);
    var docs := Docs(Rewrites(objs, user));
    forall i | 0 <= i < |docs|
      ensures docs[i].acl.Some? && docs[i].acl.value.owner == user
    {
      assert Rewrites(objs, user)[i] in Rewrites(objs, user);
    }
    RewritesIdempotent(docs, user);
  }

  function Docs(ws: seq<Write>): (r: seq<Obj>)
    ensures |r| == |ws| && forall i :: 0 <= i < |ws| ==> r[i] == ws[i].doc
  {
    if ws == [] then [] else Docs(ws[..|ws| - 1]) + [ws[|ws| - 1].doc]
  }

  /** One call of `processTasks` as written: the new `_tasks` and `_running`, whether a completion callback was scheduled, and the write issued. */
  datatype StepResult = StepResult(tasks: seq<Obj>, running: bool, callback: bool, write: Option<Write>)

  /** main.js:296-314 as written, with `HandleAsWritten` deciding the head object. */
  function ProcessTasksAsWritten(tasks: seq<Obj>, running: bool, user: string): (r: StepResult)
    ensures running || tasks == [] ==> r == StepResult(tasks, running, false, None)
    ensures !running && tasks != [] ==> r.running && r.tasks == tasks[1..]
    ensures !running && tasks != [] ==> r.callback == !HandleAsWritten(tasks[0], user).TypeError?
    ensures !running && tasks != [] ==>
      (r.write.Some? <==> HandleAsWritten(tasks[0], user).Rewrite?) &&
      (r.write.Some? ==> r.write.value == HandleAsWritten(tasks[0], user).w)
  {
    if !running && |tasks| > 0 then
      match HandleAsWritten(tasks[0], user)
      case Rewrite(w) => StepResult(tasks[1..], true, true, Some(w))
      case Skip => StepResult(tasks[1..], true, true, None)
      case TypeError => StepResult(tasks[1..], true, false, None)
    else StepResult(tasks, running, false, None)
  }

  /**
   * An object without `acl` at the head of the queue makes the source throw
   * after `_running` was set: no completion callback is scheduled, so the
   * flag is never cleared and no later object is ever handled. The model's
   * `Handle` writes such an object with the default owner instead.
   */
  lemma MissingAclStallsQueue(obj: Obj, rest: seq<Obj>, user: string)
    requires obj.acl.None?
    ensures var r := ProcessTasksAsWritten([obj] + rest, false, user);
      && r.running && !r.callback && r.write.None? && r.tasks == rest
      && ProcessTasksAsWritten(r.tasks, r.running, user) == r
    ensures Handle(obj, user).Rewrite? && Handle(obj, user).w.doc.acl == Some(Acl(user, map[]))
  {
    assert ([obj] + rest)[0] == obj && ([obj] + rest)[1..] == rest;
  }

  /** The queue's state at one moment: `_tasks`, `_running`, and the objects taken and writes issued so far. */
  datatype Snapshot = Snapshot(tasks: seq<Obj>, running: bool, taken: seq<Obj>, issued: seq<Write>)

  /**
   * The state `after` reached from `before` when `rows` were appended to the
   * queue in batches, each followed by `processTasks`: with no rows nothing
   * changes; a running queue only grows; an idle queue starts, taking
   * exactly the head of the grown queue and issuing its write, while the
   * other objects wait for completion callbacks.
   */
  ghost predicate Kicked(user: string, before: Snapshot, rows: seq<Obj>, after: Snapshot) {
    if rows == [] then after == before
    else if before.running then after == before.(tasks := before.tasks + rows)
    else
      var all := before.tasks + rows;
      var o := Handle(all[0], user);
      after == Snapshot(all[1..], true, before.taken + [all[0]], before.issued + (if o.Rewrite? then [o.w] else []))
  }

  /** Two rounds of pushing and kicking are one round with the rows of both. */
  lemma KickedCompose(user: string, s0: Snapshot, rows: seq<Obj>, s1: Snapshot, more: seq<Obj>, s2: Snapshot)
    requires Kicked(user, s0, rows, s1) && Kicked(user, s1, more, s2)
    ensures Kicked(user, s0, rows + more, s2)
  {
  }

  /**
   * The queue state kept on the adapter: `_tasks`, `_running`, and the
   * writes issued to the store. `running` is true from the moment an object
   * is taken until its completion callback runs. `enqueued` is every object
   * ever pushed and `taken` every object ever taken off the head.
   */
  class TaskQueue {
    const defaultUser: string
    var tasks: seq<Obj>
    var running: bool
    var issued: seq<Write>
    ghost var enqueued: seq<Obj>
    ghost var taken: seq<Obj>

    /**
     * The queue is what was pushed and not yet taken, in push order, and the
     * writes issued so far are exactly those for the objects taken so far.
     */
    ghost predicate Valid()
      reads this
    {
      && taken + tasks == enqueued
      && issued == Rewrites(taken, defaultUser)
    }

    ghost function State(): Snapshot
      reads this
    {
      Snapshot(tasks, running, taken, issued)
    }

    constructor (defaultUser: string)
      ensures Valid()
      ensures this.defaultUser == defaultUser
      ensures tasks == [] && !running && issued == [] && taken == [] && enqueued == []
    {
      this.defaultUser := defaultUser;
      tasks, running, issued := [], false, [];
      taken, enqueued := [], [];
    }

    /**
     * `processTasks` (main.js:296-314). Nothing happens while a task is
     * running or when the queue is empty; otherwise exactly the head is
     * taken, and the only write, if any, is the one `Handle` decides on.
     */
    method ProcessTasks()
      requires Valid()
      modifies this
      ensures Valid() && enqueued == old(enqueued)
      ensures old(running) || old(tasks) == [] ==> tasks == old(tasks) && running == old(running) && issued == old(issued) && taken == old(taken)
      ensures !old(running) && old(tasks) != [] ==>
        && running
        && tasks == old(tasks)[1..]
        && taken == old(taken) + [old(tasks)[0]]
        && issued == old(issued) + (var o := Handle(old(tasks)[0], defaultUser); if o.Rewrite? then [o.w] else [])
    {
      if !running && |tasks| > 0 {
        running := true;
        var obj := tasks[0];
        tasks := tasks[1..];
        taken := taken + [obj];
        assert (taken)[..|taken| - 1] == old(taken);
        assert taken + tasks == old(taken) + old(tasks);
        var outcome := Handle(obj, defaultUser);
        if outcome.Rewrite? {
          issued := issued + [outcome.w];
        }
      }
    }

    /**
     * The deferred completion callback (main.js:303-306 and 308-311): the
     * flag is cleared and the next object is taken. The store's answer is
     * not looked at, so a failed write is dropped like a successful one.
     */
    method TaskDone()
      requires Valid() && running
      modifies this
      ensures Valid() && enqueued == old(enqueued)
      ensures old(tasks) == [] ==> !running && tasks == [] && issued == old(issued) && taken == old(taken)
      ensures old(tasks) != [] ==>
        && running
        && tasks == old(tasks)[1..]
        && taken == old(taken) + [old(tasks)[0]]
        && issued == old(issued) + Rewrites([old(tasks)[0]], defaultUser)
    {
      running := false;
      ProcessTasks();
      if old(tasks) != [] {
        assert [old(tasks)[0]][..0] == [];
      }
    }

    /** Appends scan rows to `_tasks` in row order (main.js:322-327). */
    method Push(rows: seq<Obj>)
      requires Valid()
      modifies this
      ensures Valid()
      ensures tasks == old(tasks) + rows && enqueued == old(enqueued) + rows
      ensures running == old(running) && issued == old(issued) && taken == old(taken)
    {
      var i := 0;
      while i < |rows|
        invariant 0 <= i <= |rows|
        invariant Valid()
        invariant tasks == old(tasks) + rows[..i] && enqueued == old(enqueued) + rows[..i]
        invariant running == old(running) && issued == old(issued) && taken == old(taken)
      {
        tasks := tasks + [rows[i]];
        enqueued := enqueued + [rows[i]];
        assert rows[..i + 1] == rows[..i] + [rows[i]];
        i := i + 1;
      }
      assert rows[..|rows|] == rows;
    }

    /**
     * The rows of one non-empty scan are appended and `processTasks` is
     * called (main.js:323-327): an idle queue starts on its head, a running
     * one only grows.
     */
    method Enqueue(rows: seq<Obj>)
      requires Valid() && rows != []
      modifies this
      ensures Valid() && enqueued == old(enqueued) + rows
      ensures Kicked(defaultUser, old(State()), rows, State())
    {
      Push(rows);
      ProcessTasks();
    }

    /**
     * Runs the completion callbacks until the queue is idle, as the event
     * loop does: every waiting object is handled once, in queue order, and
     * the writes are exactly those `Rewrites` gives for them.
     */
    method Drain()
      requires Valid()
      modifies this
      ensures Valid() && !running && tasks == [] && enqueued == old(enqueued)
      ensures taken == old(taken) + old(tasks)
      ensures issued == old(issued) + Rewrites(old(tasks), defaultUser)
    {
      ProcessTasks();
      while running
        invariant Valid() && enqueued == old(enqueued)
        invariant !running ==> tasks == []
        decreases |tasks| + (if running then 1 else 0)
      {
        TaskDone();
      }
      assert taken == old(taken) + old(tasks);
      RewritesAppend(old(taken), old(tasks), defaultUser);
    }
  }
}
