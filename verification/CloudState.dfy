/** The cloud state manager: the object, its workspace, and what one call may and may not do. */
module CloudState {
  import opened Addrs

  /** State snapshots are opaque. None is Go's nil state, which is stored as the empty one. */
  type Content = nat
  const EMPTY: Content := 0

  function Stored(c: Option<Content>): Content { if c.None? then EMPTY else c.value }

  const WRAP := 0x1_0000_0000_0000_0000
  type U64 = n: nat | n < WRAP
  type Uuid = s: string | s != "" witness "u"

  function Increment(n: U64): U64 { (n + 1) % WRAP }

  datatype Version = Version(lineage: string, serial: U64, content: Content)

  /** The workspace: an exclusive lock flag and an append-only list of state versions. */
  datatype Remote = Remote(locked: bool, versions: seq<Version>)

  datatype Manager = Manager(
    lineage: string, serial: U64, content: Option<Content>,
    readLineage: string, readSerial: U64, readContent: Option<Content>,
    stateUploadErr: bool, lockId: Option<string>)

  const FRESH := Manager("", 0, None, "", 0, None, false, None)

  /** What the outside world decides during one PersistState. */
  datatype Environment = Environment(refreshOk: bool, uuid: Option<Uuid>, encodeOk: bool, uploadOk: bool)

  // ---------- One call ----------

  function Refreshed(m: Manager, r: Remote): Manager {
    if r.versions == [] then m.(readContent := None, lineage := "", serial := 0)
    else
      var v := r.versions[|r.versions| - 1];
      m.(lineage := v.lineage, serial := v.serial, content := Some(v.content),
         readLineage := v.lineage, readSerial := v.serial, readContent := Some(v.content))
  }

  predicate Unchanged(m: Manager) {
    && m.content.Some? && m.readContent == m.content
    && m.readLineage != "" && m.lineage == m.readLineage
    && m.readSerial != 0 && m.serial == m.readSerial
  }

  function Uploaded(m: Manager, r: Remote, env: Environment): (Manager, Remote, bool) {
    if !env.encodeOk then (m, r, false)
    else if !env.uploadOk then (m.(stateUploadErr := true), r, false)
    else (m.(readContent := m.content, readLineage := m.lineage, readSerial := m.serial),
          r.(versions := r.versions + [Version(m.lineage, m.serial, Stored(m.content))]), true)
  }

  function Persisted(m: Manager, r: Remote, env: Environment): (Manager, Remote, bool) {
    if m.readContent.Some? then
      if Unchanged(m) then (m, r, true)
      else Uploaded(m.(serial := Increment(m.serial)), r, env)
    else if !env.refreshOk then (m, r, false)
    else
      var m1 := Refreshed(m, r);
      if m1.lineage != "" then Uploaded(m1, r, env)
      else if env.uuid.None? then (m1, r, false)
      else Uploaded(m1.(lineage := env.uuid.value, serial := Increment(m1.serial)), r, env)
  }

  function Locked(m: Manager, r: Remote, id: string, reachable: bool): (Manager, Remote, bool) {
    if !reachable || r.locked then (m, r, false)
    else (m.(lockId := Some(id)), r.(locked := true), true)
  }

  /** name is the organization and workspace name that a forced unlock must quote. */
  function Unlocked(m: Manager, r: Remote, id: string, name: string, reachable: bool): (Manager, Remote, bool) {
    if m.stateUploadErr then (m, r, true)
    else if m.lockId.Some? && m.lockId.value != id then (m, r, false)
    else if m.lockId.None? && id != name then (m, r, false)
    else if !reachable || !r.locked then (m, r, false)
    else (m, r.(locked := false), true)
  }

  class Workspace {
    var locked: bool
    var versions: seq<Version>

    function Value(): Remote reads this { Remote(locked, versions) }

    constructor (versions: seq<Version>)
      ensures Value() == Remote(false, versions)
    {
      locked, this.versions := false, versions;
    }
  }

  class StateManager {
    var lineage: string
    var readLineage: string
    var serial: U64
    var readSerial: U64
    var content: Option<Content>
    var readContent: Option<Content>
    var stateUploadErr: bool
    var lockId: Option<string>
    const workspace: Workspace
    const name: string

    function Value(): Manager reads this {
      Manager(lineage, serial, content, readLineage, readSerial, readContent, stateUploadErr, lockId)
    }

    constructor (workspace: Workspace, name: string)
      ensures Value() == FRESH && this.workspace == workspace && this.name == name
    {
      lineage, readLineage, serial, readSerial := "", "", 0, 0;
      content, readContent, stateUploadErr, lockId := None, None, false, None;
      this.workspace, this.name := workspace, name;
    }

    method Lock(id: string, reachable: bool) returns (ok: bool)
      modifies this, workspace
      ensures (Value(), workspace.Value(), ok) == Locked(old(Value()), old(workspace.Value()), id, reachable)
    {
      if !reachable || workspace.locked {
        return false;
      }
      workspace.locked := true;
      lockId := Some(id);
      return true;
    }

    method RefreshState(reachable: bool) returns (ok: bool)
      modifies this
      ensures ok == reachable
      ensures Value() == if reachable then Refreshed(old(Value()), workspace.Value()) else old(Value())
    {
      if !reachable {
        return false;
      }
      if |workspace.versions| == 0 {
        readContent := None;
        lineage := "";
        serial := 0;
        return true;
      }
      var file := workspace.versions[|workspace.versions| - 1];
      lineage := file.lineage;
      serial := file.serial;
      content := Some(file.content);
      readLineage := file.lineage;
      readSerial := file.serial;
      readContent := content;
      return true;
    }

    method WriteState(c: Option<Content>)
      modifies this
      ensures Value() == old(Value()).(content := c)
    {
      content := c;
    }

    method PersistState(env: Environment) returns (ok: bool)
      modifies this, workspace
      ensures (Value(), workspace.Value(), ok) == Persisted(old(Value()), old(workspace.Value()), env)
    {
      if readContent.Some? {
        var lineageUnchanged := readLineage != "" && lineage == readLineage;
        var serialUnchanged := readSerial != 0 && serial == readSerial;
        var stateUnchanged := content.Some? && content == readContent;
        if stateUnchanged && lineageUnchanged && serialUnchanged {
          return true;
        }
        serial := Increment(serial);
      } else {
        ok := RefreshState(env.refreshOk);
        if !ok {
          return false;
        }
        if lineage == "" {
          if env.uuid.None? {
            return false;
          }
          lineage := env.uuid.value;
          serial := Increment(serial);
        }
      }
      if !env.encodeOk {
        return false;
      }
      if !env.uploadOk {
        stateUploadErr := true;
        return false;
      }
      workspace.versions := workspace.versions + [Version(lineage, serial, Stored(content))];
      readContent := content;
      readLineage := lineage;
      readSerial := serial;
      return true;
    }

    method Unlock(id: string, reachable: bool) returns (ok: bool)
      modifies workspace
      ensures (Value(), workspace.Value(), ok) == Unlocked(old(Value()), old(workspace.Value()), id, name, reachable)
    {
      if stateUploadErr {
        return true;
      }
      if lockId.Some? {
        if lockId.value != id {
          return false;
        }
      } else if name != id {
        return false;
      }
      if !reachable || !workspace.locked {
        return false;
      }
      workspace.locked := false;
      return true;
    }
  }

  // ---------- What one persist does ----------

  /** One non-empty lineage for good. */
  predicate OneLineage(versions: seq<Version>) {
    forall i | 0 <= i < |versions| :: versions[i].lineage != "" && versions[i].lineage == versions[0].lineage
  }

  /** If the manager remembers a state it read, the workspace still holds that one. */
  predicate ReadIsCurrent(m: Manager, versions: seq<Version>) {
    m.readContent.Some? ==>
      && versions != [] && versions[|versions| - 1] == Version(m.readLineage, m.readSerial, m.readContent.value)
      && m.lineage == m.readLineage
  }

  /** One persist by a holder: what it may change, whatever fails. */
  lemma {:induction false} PersistStep(m: Manager, r: Remote, env: Environment)
    requires ReadIsCurrent(m, r.versions) && OneLineage(r.versions)
    ensures var (m', r', ok) := Persisted(m, r, env);
            && ReadIsCurrent(m', r'.versions) && OneLineage(r'.versions)
            && r'.locked == r.locked && m'.lockId == m.lockId
            && (r'.versions == r.versions ||
                (ok && r'.versions == r.versions + [Version(m'.lineage, m'.serial, Stored(m'.content))]))
            && (m.stateUploadErr ==> m'.stateUploadErr)
  {
    var (m', r', ok) := Persisted(m, r, env);
    if r.versions != [] {
      assert r.versions[|r.versions| - 1].lineage == r.versions[0].lineage;
    }
  }

  /** The manager remembers the current version, or knows that there is none. */
  predicate InStep(m: Manager, versions: seq<Version>) {
    m.readContent.Some? || versions == []
  }

  predicate Current(versions: seq<Version>, c: Content) {
    versions != [] && versions[|versions| - 1].content == c
  }

  /** What a caller can look at before the call: in step, or there is nothing to lose. */
  predicate Safe(m: Manager, r: Remote) {
    InStep(m, r.versions) || Current(r.versions, Stored(m.content))
  }

  /** A successful PersistState leaves the workspace holding the manager's state exactly when the
      call was safe. */
  lemma {:induction false} PersistPublishesExactly(m: Manager, r: Remote, env: Environment)
    requires ReadIsCurrent(m, r.versions) && OneLineage(r.versions) && Persisted(m, r, env).2
    ensures Current(Persisted(m, r, env).1.versions, Stored(m.content)) <==> Safe(m, r)
  {
    if r.versions == [] {
    } else {
      assert r.versions[|r.versions| - 1].lineage != "";
    }
  }

  /** Whatever fails, a manager in step stays in step exactly if it has a state to persist. */
  lemma {:induction false} StayingInStepNeedsAState(m: Manager, r: Remote)
    requires ReadIsCurrent(m, r.versions) && OneLineage(r.versions) && InStep(m, r.versions)
    ensures m.content.Some? <==>
            forall env :: InStep(Persisted(m, r, env).0, Persisted(m, r, env).1.versions)
  {
    var env := Environment(true, Some("u"), true, true);
    if m.content.None? {
      assert !InStep(Persisted(m, r, env).0, Persisted(m, r, env).1.versions);
    }
  }

  /** What an out-of-step manager does: it republishes the stored snapshot under its old serial, and
      the state it was given is lost. */
  lemma {:induction false} OutOfStepLosesTheWrite(m: Manager, r: Remote, env: Environment)
    requires !InStep(m, r.versions) && OneLineage(r.versions)
    requires env.refreshOk && env.encodeOk && env.uploadOk
    ensures var (m', r', ok) := Persisted(m, r, env);
            var last := r.versions[|r.versions| - 1];
            ok && r'.versions == r.versions + [last] && m'.content == Some(last.content)
  {
  }

  /** Whether the call gets as far as the upload. */
  predicate Attempts(m: Manager, r: Remote, env: Environment) {
    && env.encodeOk
    && if m.readContent.Some? then !Unchanged(m) else env.refreshOk && (r.versions != [] || env.uuid.Some?)
  }

  /** The upload error is remembered exactly from a failed upload on. */
  lemma {:induction false} UploadErrorMeaning(m: Manager, r: Remote, env: Environment)
    requires OneLineage(r.versions)
    ensures Persisted(m, r, env).0.stateUploadErr <==> m.stateUploadErr || (Attempts(m, r, env) && !env.uploadOk)
  {
    if r.versions == [] {
    } else {
      assert r.versions[|r.versions| - 1].lineage != "";
    }
  }

  /** Nothing is uploaded exactly when the state, its lineage and its serial are the ones read; the
      call then succeeds and changes nothing. */
  lemma {:induction false} PersistSkipsExactly(m: Manager, r: Remote, env: Environment)
    requires ReadIsCurrent(m, r.versions) && m.readContent.Some? && env.encodeOk && env.uploadOk
    ensures Persisted(m, r, env).1.versions == r.versions <==>
            m.content == m.readContent && m.serial == m.readSerial && m.serial != 0 && m.readLineage != ""
    ensures Persisted(m, r, env).1.versions == r.versions ==> Persisted(m, r, env) == (m, r, true)
  {
  }

  /** What is uploaded otherwise: the state under the same lineage and the next serial. */
  lemma {:induction false} PersistUploadsNext(m: Manager, r: Remote, env: Environment)
    requires m.readContent.Some? && Persisted(m, r, env).1.versions != r.versions
    ensures Persisted(m, r, env).1.versions ==
            r.versions + [Version(m.lineage, if m.serial == WRAP - 1 then 0 else m.serial + 1, Stored(m.content))]
  {
  }

  /** The first version of a workspace has a fresh lineage and the serial 1. */
  lemma {:induction false} FirstPersistStartsAtOne(m: Manager, env: Environment, locked: bool)
    requires m.readContent.None? && env.refreshOk && env.uuid.Some? && env.encodeOk && env.uploadOk
    ensures Persisted(m, Remote(locked, []), env).1 == Remote(locked, [Version(env.uuid.value, 1, Stored(m.content))])
  {
  }

  /** A refresh adopts the current version; without one it forgets where it was but not the state. */
  lemma {:induction false} RefreshAdopts(m: Manager, r: Remote)
    ensures var m' := Refreshed(m, r);
            && m'.stateUploadErr == m.stateUploadErr && m'.lockId == m.lockId
            && ReadIsCurrent(m', r.versions)
            && if r.versions == [] then
                 m'.readContent == None && m'.lineage == "" && m'.serial == 0 && m'.content == m.content
               else
                 var v := r.versions[|r.versions| - 1];
                 && m'.content == m'.readContent == Some(v.content)
                 && m'.lineage == m'.readLineage == v.lineage && m'.serial == m'.readSerial == v.serial
  {
  }

  // ---------- The lock ----------

  /** A reachable workspace that nobody has locked can be locked, and unlocked with the same ID; any
      other attempt to lock it changes nothing. */
  lemma {:induction false} LockThenUnlock(m: Manager, r: Remote, id: string, name: string, reachable: bool)
    ensures var (m', r', ok) := Locked(m, r, id, reachable);
            && (ok <==> reachable && !r.locked)
            && (ok ==> r' == r.(locked := true) && m' == m.(lockId := Some(id)))
            && (ok && !m.stateUploadErr ==> Unlocked(m', r', id, name, true) == (m', r, true))
            && (!ok ==> m' == m && r' == r)
  {
  }

  /** No other ID opens the lock, and a failed upload keeps it closed although Unlock reports success. */
  lemma {:induction false} UnlockNeedsTheId(m: Manager, r: Remote, id: string, name: string, reachable: bool)
    ensures var (m', r', ok) := Unlocked(m, r, id, name, reachable);
            && m' == m && r'.versions == r.versions
            && (m.stateUploadErr ==> ok && r' == r)
            && (!m.stateUploadErr && id != (if m.lockId.Some? then m.lockId.value else name) ==> !ok && r' == r)
            && (!m.stateUploadErr && (!reachable || !r.locked) ==> !ok && r' == r)
  {
  }

  // ---------- Serials ----------

  predicate Increasing(versions: seq<Version>) {
    forall i, j | 0 <= i < j < |versions| :: versions[i].serial < versions[j].serial
  }

  predicate NotBehind(m: Manager) { m.readContent.Some? ==> m.readSerial <= m.serial }

  lemma {:induction false} IncreasingExtends(versions: seq<Version>, v: Version)
    requires Increasing(versions)
    ensures Increasing(versions + [v]) <==> (versions != [] ==> versions[|versions| - 1].serial < v.serial)
  {
    var w := versions + [v];
    assert versions != [] ==> w[|versions| - 1].serial == versions[|versions| - 1].serial && w[|versions|] == v;
    forall i, j | 0 <= i < j < |w| && (versions != [] ==> versions[|versions| - 1].serial < v.serial)
      ensures w[i].serial < w[j].serial
    {
      if j == |versions| && i < j - 1 {
        assert versions[i].serial < versions[j - 1].serial;
      }
    }
  }

  lemma {:induction false} PrefixBreaksOrder(versions: seq<Version>, more: seq<Version>)
    requires versions <= more && !Increasing(versions)
    ensures !Increasing(more)
  {
    var i, j :| 0 <= i < j < |versions| && !(versions[i].serial < versions[j].serial);
    assert more[i] == versions[i] && more[j] == versions[j];
  }

  /** Whether the next version, if one is made, sorts after all others. */
  predicate KeepsOrder(m: Manager, r: Remote) {
    if m.readContent.Some? then Unchanged(m) || m.readSerial < Increment(m.serial) else r.versions == []
  }

  /** Nothing fails that would keep the call from uploading, if it comes to that. */
  predicate Unhindered(m: Manager, env: Environment) {
    env.encodeOk && env.uploadOk && (m.readContent.None? ==> env.refreshOk)
  }

  lemma {:induction false} OrderAfterPersist(m: Manager, r: Remote, env: Environment)
    requires ReadIsCurrent(m, r.versions) && OneLineage(r.versions) && Increasing(r.versions)
    ensures Increasing(Persisted(m, r, env).1.versions) <==> KeepsOrder(m, r) || !Unhindered(m, env)
  {
    var m' := Persisted(m, r, env).0;
    IncreasingExtends(r.versions, Version(m'.lineage, m'.serial, Stored(m'.content)));
  }

  /** No outcome of the call breaks the order of serials exactly when the manager's next serial
      passes the one it read; for a manager that is not behind, when it is in step and its 64-bit
      serial does not wrap around. */
  lemma {:induction false} PersistKeepsOrder(m: Manager, r: Remote)
    requires ReadIsCurrent(m, r.versions) && OneLineage(r.versions) && Increasing(r.versions)
    ensures KeepsOrder(m, r) <==> forall env :: Increasing(Persisted(m, r, env).1.versions)
    ensures NotBehind(m) ==>
              (KeepsOrder(m, r) <==>
               InStep(m, r.versions) && (m.readContent.None? || Unchanged(m) || m.serial < WRAP - 1))
  {
    forall env | KeepsOrder(m, r) ensures Increasing(Persisted(m, r, env).1.versions) {
      OrderAfterPersist(m, r, env);
    }
    if !KeepsOrder(m, r) {
      var env := Environment(true, Some("u"), true, true);
      OrderAfterPersist(m, r, env);
      assert !Increasing(Persisted(m, r, env).1.versions);
    }
  }

  lemma {:induction false} SerialOfPersist(m: Manager, r: Remote, env: Environment, b: nat)
    requires ReadIsCurrent(m, r.versions) && NotBehind(m) && m.serial <= b && b + 1 < WRAP
    requires forall i | 0 <= i < |r.versions| :: r.versions[i].serial <= b
    ensures NotBehind(Persisted(m, r, env).0) && Persisted(m, r, env).0.serial <= b + 1
  {
  }
}
