/**
 The handler of shadow delta documents (source/demo-tasks/shadow_device_task.c): a register
 for the power state that only accepts documents with a newer version. Deliveries may come
 in any order and more than once; the question is when the register still ends the same.
 */
module ShadowDeltas {
  import opened Options

  // What the handler finds in a payload. Numbers are below 2^32.
  datatype Document = Document(valid: bool, version: Option<nat>, powerOn: Option<nat>)

  datatype Register = Register(version: nat, powerOn: nat)

  // The document moves the version.
  predicate Newer(r: Register, d: Document) {
    d.valid && d.version.Some? && d.version.value > r.version
  }

  function Step(r: Register, d: Document): Register {
    if !Newer(r, d) then r
    else Register(d.version.value, if d.powerOn.Some? then d.powerOn.value else r.powerOn)
  }

  function Run(r: Register, ds: seq<Document>): Register
    decreases |ds|
  {
    if ds == [] then r else Run(Step(r, ds[0]), ds[1..])
  }

  class ShadowDevice {
    var currentVersion: nat
    var currentPowerOnState: nat

    ghost function Current(): Register
      reads this
    {
      Register(currentVersion, currentPowerOnState)
    }

    constructor ()
      ensures Current() == Register(0, 0)
    {
      currentVersion, currentPowerOnState := 0, 0;
    }

    // prvIncomingPublishUpdateDeltaCallback
    method HandleDelta(document: Document)
      modifies this
      ensures Current() == Step(old(Current()), document)
      ensures currentVersion >= old(currentVersion)
      ensures if document.valid && document.version.Some? && document.version.value > old(currentVersion) then
                && currentVersion == document.version.value
                && currentPowerOnState ==
                   (if document.powerOn.Some? then document.powerOn.value else old(currentPowerOnState))
              else currentVersion == old(currentVersion) && currentPowerOnState == old(currentPowerOnState)
    {
      if document.valid {
        if document.version.Some? {
          var version := document.version.value;
          if version <= currentVersion {
            return;
          }
          currentVersion := version;
          if document.powerOn.Some? {
            currentPowerOnState := document.powerOn.value;
          }
        }
      }
    }

    method HandleAll(documents: seq<Document>)
      modifies this
      ensures Current() == Run(old(Current()), documents)
    {
      var rest := documents;
      while rest != []
        invariant Run(Current(), rest) == Run(old(Current()), documents)
        decreases |rest|
      {
        HandleDelta(rest[0]);
        rest := rest[1..];
      }
    }
  }

  // ----- The version

  // n is the highest version in the documents, or the register's own where none is newer.
  ghost predicate IsTop(r: Register, ds: seq<Document>, n: nat) {
    && n >= r.version
    && (forall d :: d in ds && Newer(r, d) ==> d.version.value <= n)
    && (n == r.version || exists d :: d in ds && Newer(r, d) && d.version.value == n)
  }

  lemma {:induction false} VersionIsTop(r: Register, ds: seq<Document>)
    ensures IsTop(r, ds, Run(r, ds).version)
    decreases |ds|
  {
    if ds != [] {
      var next := Step(r, ds[0]);
      VersionIsTop(next, ds[1..]);
      assert forall d :: d in ds <==> d == ds[0] || d in ds[1..];
    }
  }

  lemma TopIsUnique(r: Register, ds: seq<Document>, es: seq<Document>, m: nat, n: nat)
    requires SameDocuments(ds, es) && IsTop(r, ds, m) && IsTop(r, es, n)
    ensures m == n
  {
  }

  // ----- Convergence

  ghost predicate SameDocuments(ds: seq<Document>, es: seq<Document>) {
    forall d :: d in ds <==> d in es
  }

  // Any other order, with any repetition, ends in the same register.
  ghost predicate Converges(r: Register, ds: seq<Document>) {
    forall es :: SameDocuments(ds, es) ==> Run(r, es) == Run(r, ds)
  }

  // All documents of the top version carry p.
  ghost predicate TopCarries(ds: seq<Document>, top: nat, p: nat) {
    forall d :: d in ds && d.valid && d.version == Some(top) ==> d.powerOn == Some(p)
  }

  // No newer document would change the power state.
  ghost predicate NothingNew(r: Register, ds: seq<Document>) {
    forall d :: d in ds && Newer(r, d) && d.powerOn.Some? ==> d.powerOn.value == r.powerOn
  }

  lemma {:induction false} TopDecides(r: Register, ds: seq<Document>, top: nat, p: nat)
    requires IsTop(r, ds, top) && top > r.version && TopCarries(ds, top, p)
    ensures Run(r, ds) == Register(top, p)
    decreases |ds|
  {
    var next, rest := Step(r, ds[0]), ds[1..];
    assert forall d :: d in ds <==> d == ds[0] || d in rest;
    if next.version == top {
      NoneNewer(next, rest);
    } else {
      assert IsTop(next, rest, top);
      TopDecides(next, rest, top, p);
    }
  }

  lemma {:induction false} NoneNewer(r: Register, ds: seq<Document>)
    requires forall d :: d in ds ==> !Newer(r, d)
    ensures Run(r, ds) == r
  {
    if ds != [] {
      NoneNewer(r, ds[1..]);
    }
  }

  lemma {:induction false} PowerStays(r: Register, ds: seq<Document>)
    requires NothingNew(r, ds)
    ensures Run(r, ds).powerOn == r.powerOn
    decreases |ds|
  {
    if ds != [] {
      assert ds[0] in ds;
      var next := Step(r, ds[0]);
      assert NothingNew(next, ds[1..]);
      PowerStays(next, ds[1..]);
    }
  }

  // Delivering x and then a document m of the top version before the others fixes the outcome.
  lemma TwoFirst(r: Register, ds: seq<Document>, top: nat, x: Document, m: Document)
    requires x in ds && m in ds && IsTop(r, ds, top)
    requires m.valid && m.version == Some(top) && top > r.version
    ensures SameDocuments(ds, [x, m] + ds)
    ensures Run(r, [x, m] + ds) == Step(Step(r, x), m)
  {
    var es := [x, m] + ds;
    assert es[1..] == [m] + ds && ([m] + ds)[1..] == ds;
    var last := Step(Step(r, x), m);
    assert last.version == top;
    NoneNewer(last, ds);
    assert Run(r, es) == Run(Step(r, x), [m] + ds) == Run(last, ds);
  }

  // The condition under which order and repetition do not matter. It can be seen from the
  // documents before any is delivered.
  ghost predicate Settled(r: Register, ds: seq<Document>) {
    || NothingNew(r, ds)
    || exists top, p :: IsTop(r, ds, top) && TopCarries(ds, top, p)
  }

  lemma SettledConverges(r: Register, ds: seq<Document>)
    requires Settled(r, ds)
    ensures Converges(r, ds)
  {
    forall es | SameDocuments(ds, es)
      ensures Run(r, es) == Run(r, ds)
    {
      VersionIsTop(r, ds);
      VersionIsTop(r, es);
      var top := Run(r, ds).version;
      TopIsUnique(r, ds, es, top, Run(r, es).version);
      if NothingNew(r, ds) {
        assert NothingNew(r, es);
        PowerStays(r, ds);
        PowerStays(r, es);
      } else {
        var t, p :| IsTop(r, ds, t) && TopCarries(ds, t, p);
        TopIsUnique(r, ds, ds, t, top);
        if top > r.version {
          TopDecides(r, ds, top, p);
          TopDecides(r, es, top, p);
        } else {
          NoneNewer(r, ds);
          NoneNewer(r, es);
        }
      }
    }
  }

  // With x able to change the power state, a document of the top version has to set it.
  lemma TopMustCarry(r: Register, ds: seq<Document>, top: nat, x: Document, d: Document)
    requires Converges(r, ds) && IsTop(r, ds, top)
    requires x in ds && Newer(r, x) && x.powerOn.Some? && x.powerOn.value != r.powerOn
    requires d in ds && d.valid && d.version == Some(top)
    ensures d.powerOn == Some(Run(r, ds).powerOn)
  {
    assert top > r.version;
    hide Run, Converges, SameDocuments, IsTop;
    TwoFirst(r, ds, top, d, d);
    TwoFirst(r, ds, top, x, d);
    ConvergesAt(r, ds, [d, d] + ds);
    ConvergesAt(r, ds, [x, d] + ds);
    assert d.powerOn.None? ==> Step(Step(r, d), d).powerOn == r.powerOn;
  }

  lemma ConvergesAt(r: Register, ds: seq<Document>, es: seq<Document>)
    requires Converges(r, ds) && SameDocuments(ds, es)
    ensures Run(r, es) == Run(r, ds)
  {
  }

  lemma ConvergesOnlyIfSettled(r: Register, ds: seq<Document>)
    requires Converges(r, ds)
    ensures Settled(r, ds)
  {
    hide Converges, Run;
    if !NothingNew(r, ds) {
      VersionIsTop(r, ds);
      var top, p := Run(r, ds).version, Run(r, ds).powerOn;
      var x :| x in ds && Newer(r, x) && x.powerOn.Some? && x.powerOn.value != r.powerOn;
      forall d | d in ds && d.valid && d.version == Some(top)
        ensures d.powerOn == Some(p)
      {
        TopMustCarry(r, ds, top, x, d);
      }
      assert TopCarries(ds, top, p);
    }
  }

  /**
   Documents can be delivered in any order and any number of times exactly when all of the
   top version carry one power state, or no newer document would change the power state.
   */
  lemma ConvergesIffSettled(r: Register, ds: seq<Document>)
    ensures Converges(r, ds) <==> Settled(r, ds)
  {
    if Settled(r, ds) {
      SettledConverges(r, ds);
    }
    if Converges(r, ds) {
      ConvergesOnlyIfSettled(r, ds);
    }
  }

  // Every document is well formed, with a positive version and a power state.
  predicate Complete(d: Document) {
    d.valid && d.version.Some? && d.version.value > 0 && d.powerOn.Some?
  }

  // Complete documents that agree where their versions do always converge.
  lemma CompleteDocumentsConverge(r: Register, ds: seq<Document>)
    requires forall d :: d in ds ==> Complete(d)
    requires forall d, e :: d in ds && e in ds && d.version == e.version ==> d.powerOn == e.powerOn
    ensures Converges(r, ds)
  {
    VersionIsTop(r, ds);
    var top := Run(r, ds).version;
    if top > r.version {
      var m :| m in ds && Newer(r, m) && m.version.value == top;
      assert TopCarries(ds, top, m.powerOn.value);
    } else {
      assert NothingNew(r, ds);
    }
    SettledConverges(r, ds);
  }

  // And they end with the document of the highest version, if that is newer than the register.
  lemma CompleteDocumentsEnd(r: Register, ds: seq<Document>, m: Document)
    requires forall d :: d in ds ==> Complete(d)
    requires forall d, e :: d in ds && e in ds && d.version == e.version ==> d.powerOn == e.powerOn
    requires m in ds && Complete(m)
    requires forall d :: d in ds && Complete(d) ==> d.version.value <= m.version.value
    ensures Run(r, ds) == if m.version.value > r.version then Register(m.version.value, m.powerOn.value) else r
  {
    if m.version.value > r.version {
      assert IsTop(r, ds, m.version.value) && TopCarries(ds, m.version.value, m.powerOn.value);
      TopDecides(r, ds, m.version.value, m.powerOn.value);
    } else {
      NoneNewer(r, ds);
    }
  }

  // A newer document without a power state makes the outcome depend on the order.
  lemma MissingPowerOnDiverges()
    ensures var on, bare := Document(true, Some(1), Some(1)), Document(true, Some(2), None);
            && Run(Register(0, 0), [on, bare]) == Register(2, 1)
            && Run(Register(0, 0), [bare, on]) == Register(2, 0)
            && !Converges(Register(0, 0), [on, bare])
  {
    var r, on, bare := Register(0, 0), Document(true, Some(1), Some(1)), Document(true, Some(2), None);
    assert [on, bare][1..] == [bare] && [bare, on][1..] == [on];
    assert Run(Step(Step(r, on), bare), []) == Register(2, 1);
    assert Run(Step(Step(r, bare), on), []) == Register(2, 0);
    assert SameDocuments([on, bare], [bare, on]);
  }
}
