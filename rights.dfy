/**
 * Rights propagation of main.js:316-370 (`applyRightsToObjects`,
 * `applyRights`): the objects of the allowed adapter instances are given
 * the default owner directly, and for every allowed UI tab the objects of
 * the tab's namespace are scanned by type and queued on the ownership task
 * queue. The store is passed in as two functions: `getObject` for
 * `getForeignObject` and `scan` for `getObjectView` (`None` is an error).
 */
module Rights {
  import opened Wrappers
  import opened Strings
  import opened Tasks

  /** The namespace a tab's objects live in and the object types to scan there. */
  datatype Target = Target(ns: string, types: seq<string>)

  datatype Rule = Rule(prefix: string, target: Target)

  /** The tab prefixes recognised by `applyRights`, in the order they are tried. */
  const TabRules: seq<Rule> := [
    Rule("devices.", Target("alias", ["state", "channel"])),
    Rule("javascript.", Target("javascript", ["script", "channel"])),
    Rule("fullcalendar.", Target("fullcalendar", ["schedule"])),
    Rule("scenes.", Target("scenes", ["state", "channel"]))
  ]

  /** The `startsWith` chain of main.js:349-362. */
  function TargetOf(tabId: string): Option<Target> {
    if HasPrefix(tabId, "devices.") then Some(Target("alias", ["state", "channel"]))
    else if HasPrefix(tabId, "javascript.") then Some(Target("javascript", ["script", "channel"]))
    else if HasPrefix(tabId, "fullcalendar.") then Some(Target("fullcalendar", ["schedule"]))
    else if HasPrefix(tabId, "scenes.") then Some(Target("scenes", ["state", "channel"]))
    else None
  }

  /**
   * The prefixes are pairwise exclusive, so the first match is the only
   * match: a tab id selects the target of the rule whose prefix it has, and
   * an id with none of them selects nothing.
   */
  lemma TargetOfMatchesRule(tabId: string)
    ensures TargetOf(tabId).Some? <==> exists i :: 0 <= i < |TabRules| && HasPrefix(tabId, TabRules[i].prefix)
    ensures forall i :: 0 <= i < |TabRules| && HasPrefix(tabId, TabRules[i].prefix) ==> TargetOf(tabId) == Some(TabRules[i].target)
  {
    PrefixesExclusive(tabId);
  }

  /** A tab id has at most one of the recognised prefixes: they already differ in their first character. */
  lemma PrefixesExclusive(tabId: string)
    ensures forall i :: 0 <= i < |TabRules| && HasPrefix(tabId, TabRules[i].prefix) ==> tabId[0] == TabRules[i].prefix[0]
    ensures TabRules[0].prefix[0] == 'd' && TabRules[1].prefix[0] == 'j'
    ensures TabRules[2].prefix[0] == 'f' && TabRules[3].prefix[0] == 's'
  {
    forall i | 0 <= i < |TabRules| && HasPrefix(tabId, TabRules[i].prefix)
      ensures tabId[0] == TabRules[i].prefix[0]
    {
      var p := TabRules[i].prefix;
      assert p != [];
      assert tabId[..|p|][0] == p[0];
    }
  }

  // ---------------------------------------------------------------------------
  // the key range of a namespace scan

  function StartKey(ns: string): string {
    ns + "."
  }

  function EndKey(ns: string): string {
    ns + ".\U{9999}"
  }

  /** The store returns a key for a scan when it lies between the two bounds, both included. */
  predicate InScan(key: string, ns: string) {
    LexLe(StartKey(ns), key) && LexLe(key, EndKey(ns))
  }

  /** Only keys of the namespace, `ns.` followed by anything, are returned by its scan. */
  lemma ScanStaysInNamespace(ns: string, key: string)
    requires InScan(key, ns)
    ensures HasPrefix(key, ns + ".")
  {
    assert EndKey(ns) == (ns + ".") + "\U{9999}";
    BetweenPrefixBounds(ns + ".", "\U{9999}", key);
  }

  /**
   * A key `ns.rest` is returned exactly when `rest` is empty, starts with a
   * character below U+9999, or is that one character: keys whose first
   * character after the dot is above U+9999 are not covered.
   */
  lemma ScanCoversNamespace(ns: string, rest: string)
    ensures InScan(ns + "." + rest, ns) <==> (rest == [] || rest[0] < '\U{9999}' || rest == "\U{9999}")
  {
    var p := ns + ".";
    assert ns + "." + rest == p + rest;
    assert EndKey(ns) == p + "\U{9999}";
    PrefixIsLexLe(p, rest);
    LexLeCommonPrefix(p, rest, "\U{9999}");
    if rest != [] && rest[0] == '\U{9999}' {
      assert rest == "\U{9999}" <==> rest[1..] == [];
    }
  }

  // ---------------------------------------------------------------------------
  // specification of what is queued and written

  /** The rows one type scan of namespace `ns` yields; an error yields none. */
  function TypeRows(scan: (string, string, string) -> Option<seq<Obj>>, ns: string, objType: string): seq<Obj> {
    match scan(objType, StartKey(ns), EndKey(ns))
    case None => []
    case Some(rows) => rows
  }

  /** The rows of all type scans of `ns`, type by type, each in row order. */
  function ScannedRows(scan: (string, string, string) -> Option<seq<Obj>>, ns: string, types: seq<string>): seq<Obj> {
    if types == [] then []
    else ScannedRows(scan, ns, types[..|types| - 1]) + TypeRows(scan, ns, types[|types| - 1])
  }

  /** The rows queued for one tab id: the scans of its target, or nothing. */
  function TabTargetRows(scan: (string, string, string) -> Option<seq<Obj>>, tabId: string): seq<Obj> {
    match TargetOf(tabId)
    case None => []
    case Some(t) => ScannedRows(scan, t.ns, t.types)
  }

  /** The rows queued for a list of tab ids. */
  function TabRows(scan: (string, string, string) -> Option<seq<Obj>>, tabIds: seq<string>): seq<Obj> {
    if tabIds == [] then []
    else TabRows(scan, tabIds[..|tabIds| - 1]) + TabTargetRows(scan, tabIds[|tabIds| - 1])
  }

  lemma TabRowsStep(scan: (string, string, string) -> Option<seq<Obj>>, tabIds: seq<string>, i: nat)
    requires i < |tabIds|
    ensures TabRows(scan, tabIds[..i + 1]) == TabRows(scan, tabIds[..i]) + TabTargetRows(scan, tabIds[i])
  {
    assert tabIds[..i + 1][..i] == tabIds[..i];
  }

  lemma ScannedRowsStep(scan: (string, string, string) -> Option<seq<Obj>>, ns: string, types: seq<string>, i: nat)
    requires i < |types|
    ensures ScannedRows(scan, ns, types[..i + 1]) == ScannedRows(scan, ns, types[..i]) + TypeRows(scan, ns, types[i])
  {
    assert types[..i + 1][..i] == types[..i];
  }

  lemma AppendAssoc(a: seq<Obj>, b: seq<Obj>, c: seq<Obj>)
    ensures a + b + c == a + (b + c)
  {
  }

  /** Tab ids none of whose prefixes is recognised queue nothing. */
  lemma {:induction false} UnknownTabsQueueNothing(scan: (string, string, string) -> Option<seq<Obj>>, tabIds: seq<string>)
    requires forall i :: 0 <= i < |tabIds| ==> TargetOf(tabIds[i]).None?
    ensures TabRows(scan, tabIds) == []
  {
    if tabIds != [] {
      UnknownTabsQueueNothing(scan, tabIds[..|tabIds| - 1]);
    }
  }

  /** The write for one allowed instance id (main.js:340-346), if any. */
  function ConfigWrite(id: string, user: string, getObject: string -> Option<Obj>): Option<Write> {
    var key := "system.adapter." + id;
    match getObject(key)
    case Some(obj) =>
      if obj.acl.Some? && obj.acl.value.owner != user then Some(Write(key, WithOwner(obj, user))) else None
    case None => None
  }

  function ConfigWrites(ids: seq<string>, user: string, getObject: string -> Option<Obj>): (ws: seq<Write>)
    ensures |ws| <= |ids|
  {
    if ids == [] then []
    else
      var w := ConfigWrite(ids[|ids| - 1], user, getObject);
      ConfigWrites(ids[..|ids| - 1], user, getObject) + (if w.Some? then [w.value] else [])
  }

  /** The number of writes the store accepted: the `true` results of the promises. */
  function Accepted(ws: seq<Write>, ok: Write -> bool): (n: nat)
    ensures n <= |ws|
  {
    if ws == [] then 0 else Accepted(ws[..|ws| - 1], ok) + (if ok(ws[|ws| - 1]) then 1 else 0)
  }

  lemma ConfigWritesStep(ids: seq<string>, user: string, getObject: string -> Option<Obj>, i: nat)
    requires i < |ids|
    ensures var w := ConfigWrite(ids[i], user, getObject);
      ConfigWrites(ids[..i + 1], user, getObject) == ConfigWrites(ids[..i], user, getObject) + (if w.Some? then [w.value] else [])
  {
    assert ids[..i + 1][..i] == ids[..i];
  }

  lemma AcceptedStep(ws: seq<Write>, w: Write, ok: Write -> bool)
    ensures Accepted(ws + [w], ok) == Accepted(ws, ok) + (if ok(w) then 1 else 0)
  {
    assert (ws + [w])[..|ws|] == ws;
  }

  /**
   * The direct writes are exactly the needed owner changes: every write
   * targets `system.adapter.<id>` for an allowed id and holds the object read
   * there, which had an acl with another owner, with only its owner replaced
   * by `user`; and every allowed id whose object has an acl with another
   * owner is written.
   */
  lemma {:induction false} ConfigWritesAreOwnerChanges(ids: seq<string>, user: string, getObject: string -> Option<Obj>)
    ensures forall w :: w in ConfigWrites(ids, user, getObject) ==>
      && (exists id :: id in ids && w.id == "system.adapter." + id)
      && getObject(w.id).Some?
      && var o := getObject(w.id).value;
         o.acl.Some? && o.acl.value.owner != user && w.doc == WithOwner(o, user)
    ensures forall id :: id in ids ==>
      var o := getObject("system.adapter." + id);
      o.Some? && o.value.acl.Some? && o.value.acl.value.owner != user ==>
        Write("system.adapter." + id, WithOwner(o.value, user)) in ConfigWrites(ids, user, getObject)
  {
    if ids != [] {
      var init := ids[..|ids| - 1];
      var last := ids[|ids| - 1];
      ConfigWritesAreOwnerChanges(init, user, getObject);
      assert forall id :: id in init ==> id in ids;
      assert ids == init + [last];
      forall id | id in ids
        ensures var o := getObject("system.adapter." + id);
          o.Some? && o.value.acl.Some? && o.value.acl.value.owner != user ==>
            Write("system.adapter." + id, WithOwner(o.value, user)) in ConfigWrites(ids, user, getObject)
      {
        if id != last {
          assert id in init;
        }
      }
    }
  }

  /** When every allowed instance object already belongs to `user`, nothing is written. */
  lemma {:induction false} ConfigWritesIdempotent(ids: seq<string>, user: string, getObject: string -> Option<Obj>)
    requires forall i :: 0 <= i < |ids| ==> var o := getObject("system.adapter." + ids[i]);
      o.None? || o.value.acl.None? || o.value.acl.value.owner == user
    ensures ConfigWrites(ids, user, getObject) == []
  {
    if ids != [] {
      ConfigWritesIdempotent(ids[..|ids| - 1], user, getObject);
    }
  }

  // ---------------------------------------------------------------------------
  // the operations

  /**
   * The direct rewrites of main.js:339-347 and the count of main.js:365-368,
   * taken one id after the other.
   */
  method ApplyConfigRights(ids: seq<string>, user: string, getObject: string -> Option<Obj>, ok: Write -> bool)
    returns (writes: seq<Write>, changed: nat)
    ensures writes == ConfigWrites(ids, user, getObject)
    ensures changed == Accepted(writes, ok) && changed <= |ids|
  {
    writes, changed := [], 0;
    for i := 0 to |ids|
      invariant writes == ConfigWrites(ids[..i], user, getObject)
      invariant changed == Accepted(writes, ok)
    {
      ConfigWritesStep(ids, user, getObject, i);
      var key := "system.adapter." + ids[i];
      var obj := getObject(key);
      if obj.Some? && obj.value.acl.Some? && obj.value.acl.value.owner != user {
        var w := Write(key, WithOwner(obj.value, user));
        AcceptedStep(writes, w, ok);
        writes := writes + [w];
        if ok(w) {
          changed := changed + 1;
        }
      }
    }
    assert ids[..|ids|] == ids;
  }

  /**
   * `applyRightsToObjects(adapter, ns, types)` (main.js:316-331): each type
   * is scanned over the namespace's key range; the rows of a successful,
   * non-empty scan are appended to the queue and the queue is kicked.
   */
  method ApplyRightsToObjects(q: TaskQueue, ns: string, types: seq<string>, scan: (string, string, string) -> Option<seq<Obj>>)
    requires q.Valid()
    modifies q
    ensures q.Valid()
    ensures q.enqueued == old(q.enqueued) + ScannedRows(scan, ns, types)
    ensures Kicked(q.defaultUser, old(q.State()), ScannedRows(scan, ns, types), q.State())
  {
    for i := 0 to |types|
      invariant q.Valid()
      invariant q.enqueued == old(q.enqueued) + ScannedRows(scan, ns, types[..i])
      invariant Kicked(q.defaultUser, old(q.State()), ScannedRows(scan, ns, types[..i]), q.State())
    {
      ScannedRowsStep(scan, ns, types, i);
      AppendAssoc(old(q.enqueued), ScannedRows(scan, ns, types[..i]), TypeRows(scan, ns, types[i]));
      var result := scan(types[i], StartKey(ns), EndKey(ns));
      if result.Some? && |result.value| > 0 {
        ghost var mid := q.State();
        q.Enqueue(result.value);
        KickedCompose(q.defaultUser, old(q.State()), ScannedRows(scan, ns, types[..i]), mid, result.value, q.State());
      } else {
        assert ScannedRows(scan, ns, types[..i]) + TypeRows(scan, ns, types[i]) == ScannedRows(scan, ns, types[..i]);
      }
    }
    assert types[..|types|] == types;
  }

  /** One step of the tab loop of main.js:349-362: a recognised tab id scans its namespace. */
  method ApplyTabRight(q: TaskQueue, tabId: string, scan: (string, string, string) -> Option<seq<Obj>>)
    requires q.Valid()
    modifies q
    ensures q.Valid()
    ensures q.enqueued == old(q.enqueued) + TabTargetRows(scan, tabId)
    ensures Kicked(q.defaultUser, old(q.State()), TabTargetRows(scan, tabId), q.State())
  {
    var target := TargetOf(tabId);
    if target.Some? {
      ApplyRightsToObjects(q, target.value.ns, target.value.types, scan);
    }
  }

  /** The tab loop of main.js:349-363, one tab id after the other. */
  method ApplyTabRights(q: TaskQueue, tabIds: seq<string>, scan: (string, string, string) -> Option<seq<Obj>>)
    requires q.Valid()
    modifies q
    ensures q.Valid()
    ensures q.enqueued == old(q.enqueued) + TabRows(scan, tabIds)
    ensures Kicked(q.defaultUser, old(q.State()), TabRows(scan, tabIds), q.State())
  {
    for i := 0 to |tabIds|
      invariant q.Valid()
      invariant q.enqueued == old(q.enqueued) + TabRows(scan, tabIds[..i])
      invariant Kicked(q.defaultUser, old(q.State()), TabRows(scan, tabIds[..i]), q.State())
    {
      TabRowsStep(scan, tabIds, i);
      AppendAssoc(old(q.enqueued), TabRows(scan, tabIds[..i]), TabTargetRows(scan, tabIds[i]));
      ghost var mid := q.State();
      ApplyTabRight(q, tabIds[i], scan);
      KickedCompose(q.defaultUser, old(q.State()), TabRows(scan, tabIds[..i]), mid, TabTargetRows(scan, tabIds[i]), q.State());
    }
    assert tabIds[..|tabIds|] == tabIds;
  }

  /**
   * `applyRights(adapter)` (main.js:334-370): the direct rewrites of the
   * allowed instances, then the namespace scans of the allowed tabs.
   */
  method ApplyRights(q: TaskQueue, configIds: seq<string>, tabIds: seq<string>,
                     getObject: string -> Option<Obj>, ok: Write -> bool,
                     scan: (string, string, string) -> Option<seq<Obj>>)
    returns (writes: seq<Write>, changed: nat)
    requires q.Valid()
    modifies q
    ensures q.Valid()
    ensures writes == ConfigWrites(configIds, q.defaultUser, getObject)
    ensures changed == Accepted(writes, ok)
    ensures q.enqueued == old(q.enqueued) + TabRows(scan, tabIds)
    ensures Kicked(q.defaultUser, old(q.State()), TabRows(scan, tabIds), q.State())
  {
    writes, changed := ApplyConfigRights(configIds, q.defaultUser, getObject, ok);
    ApplyTabRights(q, tabIds, scan);
  }
}
