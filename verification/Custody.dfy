/** Custody of identity documents: an object store whose operations may fail at any step, next to
    the rows a database transaction commits, for any number of interleaved submissions. */
module Custody {
  import opened Prelude

  type Bytes = seq<nat>

  /** SHA-256 stands as an uninterpreted function of the bytes. */
  type Hasher = Bytes -> string

  // ---------- object keys ----------

  const COMMITTED_PREFIX := "voter-verification"
  const PENDING_PREFIX := "voter-verification/pending"
  const ID_LENGTH: nat := 36

  /** What a submission names; the identifier is a fresh UUID. */
  datatype Document = Document(id: string, fileName: string, year: nat, month: nat, body: Bytes)

  predicate IsSafe(c: char) {
    || 'a' <= c <= 'z' || 'A' <= c <= 'Z' || '0' <= c <= '9'
    || c == '.' || c == '_' || c == '-'
  }

  /** Unsafe characters become underscores; the last eighty are kept. */
  function SafeName(name: string): (safe: string)
    ensures |safe| == if |name| < 80 then |name| else 80
    ensures forall i :: 0 <= i < |safe| ==> safe[i] == if IsSafe(name[|name| - |safe| + i]) then name[|name| - |safe| + i] else '_'
  {
    var safe := Map((c: char) => if IsSafe(c) then c else '_', name);
    if |safe| > 80 then safe[|safe| - 80..] else safe
  }

  function TwoDigits(n: nat): (s: string)
    ensures n < 100 ==> s == ["0123456789"[n / 10], "0123456789"[n % 10]]
  {
    if n < 10 then LastDigit(n); "0" + Decimal(n)
    else LastDigit(n); LastDigit(n / 10); Decimal(n)
  }

  function BaseName(d: Document): string { d.id + ("-" + SafeName(d.fileName)) }

  function PendingKey(d: Document): string { PENDING_PREFIX + ("/" + BaseName(d)) }

  function MonthPath(d: Document): string { TwoDigits(d.month) + ("/" + BaseName(d)) }

  function YearPath(d: Document): string { Decimal(d.year) + ("/" + MonthPath(d)) }

  function CommittedKey(d: Document): string { COMMITTED_PREFIX + ("/" + YearPath(d)) }

  predicate IsPendingObjectKey(key: string): (pending: bool)
    ensures pending <==> |key| >= 27 && key[..27] == "voter-verification/pending/"
  {
    PENDING_PREFIX + "/" <= key
  }

  predicate IsCommittedObjectKey(key: string): (committed: bool)
    ensures committed <==> |key| >= 19 && key[..19] == "voter-verification/" && !IsPendingObjectKey(key)
  {
    COMMITTED_PREFIX + "/" <= key && !IsPendingObjectKey(key)
  }

  lemma PendingNamespace(d: Document)
    ensures IsPendingObjectKey(PendingKey(d))
  {
    assert PendingKey(d) == (PENDING_PREFIX + "/") + BaseName(d);
  }

  lemma CommittedNamespace(d: Document)
    ensures IsCommittedObjectKey(CommittedKey(d))
  {
    var key, rest := CommittedKey(d), YearPath(d);
    assert key == (COMMITTED_PREFIX + "/") + rest;
    assert key[19] == rest[0] == Decimal(d.year)[0];
    assert (PENDING_PREFIX + "/")[19] == 'p';
  }

  lemma Cancel(prefix: string, x: string, y: string)
    requires prefix + x == prefix + y
    ensures x == y
  {
    assert x == (prefix + x)[|prefix|..] && y == (prefix + y)[|prefix|..];
  }

  lemma SameHead(x: string, rest: string, y: string, other: string)
    requires |x| == |y| && x + rest == y + other
    ensures x == y && rest == other
  {
    assert x == (x + rest)[..|x|] && y == (y + other)[..|y|];
    Cancel(x, rest, other);
  }

  /** Digits up to the first slash: what follows is determined. */
  lemma AfterDigits(m: nat, rest: string, n: nat, other: string)
    requires Decimal(m) + ("/" + rest) == Decimal(n) + ("/" + other)
    ensures rest == other
  {
    var s := Decimal(m) + ("/" + rest);
    assert s[|Decimal(m)|] == '/' && s[|Decimal(n)|] == '/';
    assert forall i :: 0 <= i < |Decimal(m)| ==> s[i] == Decimal(m)[i];
    assert forall i :: 0 <= i < |Decimal(n)| ==> s[i] == Decimal(n)[i];
    SameHead(Decimal(m), "/" + rest, Decimal(n), "/" + other);
    Cancel("/", rest, other);
  }

  predicate IsUuid(id: string) { |id| == ID_LENGTH }

  lemma PendingKeysApart(a: Document, b: Document)
    requires IsUuid(a.id) && IsUuid(b.id) && PendingKey(a) == PendingKey(b)
    ensures a.id == b.id
  {
    Cancel(PENDING_PREFIX, "/" + BaseName(a), "/" + BaseName(b));
    Cancel("/", BaseName(a), BaseName(b));
    SameHead(a.id, "-" + SafeName(a.fileName), b.id, "-" + SafeName(b.fileName));
  }

  lemma CommittedKeysApart(a: Document, b: Document)
    requires IsUuid(a.id) && IsUuid(b.id) && a.month < 100 && b.month < 100 && CommittedKey(a) == CommittedKey(b)
    ensures a.id == b.id
  {
    Cancel(COMMITTED_PREFIX, "/" + YearPath(a), "/" + YearPath(b));
    Cancel("/", YearPath(a), YearPath(b));
    AfterDigits(a.year, MonthPath(a), b.year, MonthPath(b));
    SameHead(TwoDigits(a.month), "/" + BaseName(a), TwoDigits(b.month), "/" + BaseName(b));
    Cancel("/", BaseName(a), BaseName(b));
    SameHead(a.id, "-" + SafeName(a.fileName), b.id, "-" + SafeName(b.fileName));
  }

  /** A document the server has named: both keys are fixed before anything is stored. */
  datatype Stored = Stored(id: string, pendingKey: string, committedKey: string, body: Bytes)

  function Named(d: Document): Stored { Stored(d.id, PendingKey(d), CommittedKey(d), d.body) }

  predicate KeysApart(a: Stored, b: Stored) {
    && a.pendingKey != b.pendingKey && a.committedKey != b.committedKey
    && a.pendingKey != b.committedKey && a.committedKey != b.pendingKey
  }

  predicate InNamespaces(d: Stored) { IsPendingObjectKey(d.pendingKey) && IsCommittedObjectKey(d.committedKey) }

  /** Documents with different identifiers never name the same object, in either namespace. */
  lemma NamesApart(a: Document, b: Document)
    requires IsUuid(a.id) && IsUuid(b.id) && a.month < 100 && b.month < 100
    ensures InNamespaces(Named(a)) && InNamespaces(Named(b))
    ensures a.id != b.id ==> KeysApart(Named(a), Named(b))
  {
    PendingNamespace(a);
    PendingNamespace(b);
    CommittedNamespace(a);
    CommittedNamespace(b);
    if PendingKey(a) == PendingKey(b) { PendingKeysApart(a, b); }
    if CommittedKey(a) == CommittedKey(b) { CommittedKeysApart(a, b); }
  }

  // ---------- the store ----------

  /** An operation works, fails before its effect, fails after it, or leaves other bytes than it was sent:
      the provider has not checked the payload hash signed with the request, or damages what it keeps. */
  datatype Fault = Fine | FailsBefore | FailsAfter | Corrupts(bytes: Bytes)

  type Objects = map<string, Bytes>

  /** What is left at the key when these bytes were sent. */
  function Landed(sent: Bytes, fault: Fault): Bytes { if fault.Corrupts? then fault.bytes else sent }

  /** A put that succeeds returns the bytes it was given, and its receipt carries their hash, whatever
      the store has kept. */
  function PutObject(objects: Objects, key: string, body: Bytes, fault: Fault): (Objects, Option<Bytes>) {
    if key in objects || fault == FailsBefore then (objects, None)
    else (objects[key := Landed(body, fault)], if fault == FailsAfter then None else Some(body))
  }

  /** A copy reads the source and puts what it read. */
  function CopyObject(objects: Objects, source: string, destination: string, fault: Fault): (Objects, bool) {
    if source !in objects then (objects, false)
    else
      var (after, stored) := PutObject(objects, destination, objects[source], fault);
      (after, stored.Some?)
  }

  function DeleteObject(objects: Objects, key: string, fault: Fault): (Objects, bool) {
    if fault == FailsBefore then (objects, false) else (objects - {key}, fault != FailsAfter)
  }

  predicate Succeeds(fault: Fault) { fault == Fine || fault.Corrupts? }

  /** What a delete of the key leaves: unless it failed before its effect the key is gone, and nothing else. */
  predicate Removes(before: Objects, key: string, fault: Fault, after: Objects) {
    after == if fault == FailsBefore then before else map k | k in before && k != key :: before[k]
  }

  /** What a put under the key leaves: on a free key, unless it failed before its effect, the bytes sent or
      those the store kept instead; and nothing else. */
  predicate Adds(before: Objects, key: string, sent: Bytes, fault: Fault, after: Objects) {
    after == if key in before || fault == FailsBefore then before
             else before[key := if fault.Corrupts? then fault.bytes else sent]
  }

  /** What a promotion leaves: the copy at the committed key, and the pending object only where the copy was
      not reported or its removal failed before its effect. */
  ghost predicate Promotes(before: Objects, pending: string, committed: string, copying: Fault, removing: Fault, after: Objects, ok: bool) {
    if pending !in before || committed in before then after == before && !ok
    else
      && (ok <==> Succeeds(copying) && Succeeds(removing))
      && (committed in after <==> copying != FailsBefore)
      && (committed in after ==> after[committed] == if copying.Corrupts? then copying.bytes else before[pending])
      && (pending in after <==> !Succeeds(copying) || removing == FailsBefore)
      && (pending in after ==> after[pending] == before[pending])
      && (forall k :: k != pending && k != committed ==> (k in after <==> k in before) && (k in after ==> after[k] == before[k]))
  }

  /** The in-memory driver, with the faults it is to suffer passed in. */
  class ObjectStore {
    var objects: Objects

    constructor ()
      ensures objects == map[]
    {
      objects := map[];
    }

    method PutObjectIfAbsent(key: string, body: Bytes, fault: Fault) returns (stored: Option<Bytes>)
      modifies this
      ensures (objects, stored) == PutObject(old(objects), key, body, fault)
      ensures Adds(old(objects), key, body, fault, objects)
      ensures stored == if key !in old(objects) && Succeeds(fault) then Some(body) else None
    {
      if key in objects || fault == FailsBefore {
        return None;
      }
      objects := objects[key := Landed(body, fault)];
      return if fault == FailsAfter then None else Some(body);
    }

    method GetObject(key: string) returns (body: Option<Bytes>)
      ensures body.Some? <==> key in objects
      ensures body.Some? ==> body.value == objects[key]
    {
      body := if key in objects then Some(objects[key]) else None;
    }

    method DeleteObjectUnchecked(key: string, fault: Fault) returns (ok: bool)
      modifies this
      ensures (objects, ok) == DeleteObject(old(objects), key, fault)
      ensures Removes(old(objects), key, fault, objects) && (ok <==> Succeeds(fault))
    {
      if fault == FailsBefore {
        return false;
      }
      objects := objects - {key};
      return fault != FailsAfter;
    }

    method CopyObjectUnchecked(source: string, destination: string, fault: Fault) returns (ok: bool)
      modifies this
      ensures (objects, ok) == CopyObject(old(objects), source, destination, fault)
      ensures if source in old(objects) then Adds(old(objects), destination, old(objects)[source], fault, objects) else objects == old(objects)
      ensures ok <==> source in old(objects) && destination !in old(objects) && Succeeds(fault)
    {
      var read := GetObject(source);
      if read.None? {
        return false;
      }
      var stored := PutObjectIfAbsent(destination, read.value, fault);
      return stored.Some?;
    }

    /** The only deletion the application performs; it never touches a committed key. */
    method DiscardPendingObject(key: string, fault: Fault) returns (ok: bool)
      modifies this
      ensures !IsPendingObjectKey(key) ==> !ok && objects == old(objects)
      ensures IsPendingObjectKey(key) ==> Removes(old(objects), key, fault, objects) && (ok <==> Succeeds(fault))
      ensures IsPendingObjectKey(key) ==> (objects, ok) == DeleteObject(old(objects), key, fault)
      ensures forall k :: k in old(objects) && !IsPendingObjectKey(k) ==> k in objects && objects[k] == old(objects)[k]
    {
      if !IsPendingObjectKey(key) {
        return false;
      }
      ok := DeleteObjectUnchecked(key, fault);
    }

    /** Copy, then delete the pending copy; committed objects only ever appear. */
    method PromotePendingObject(pending: string, committed: string, copying: Fault, removing: Fault) returns (ok: bool)
      modifies this
      ensures !IsPendingObjectKey(pending) || IsPendingObjectKey(committed) ==> !ok && objects == old(objects)
      ensures IsPendingObjectKey(pending) && !IsPendingObjectKey(committed) ==>
        && (objects, ok) == Promote(old(objects), pending, committed, copying, removing)
        && Promotes(old(objects), pending, committed, copying, removing, objects, ok)
      ensures forall k :: k in old(objects) && !IsPendingObjectKey(k) ==> k in objects && objects[k] == old(objects)[k]
    {
      if !IsPendingObjectKey(pending) || IsPendingObjectKey(committed) {
        return false;
      }
      ok := CopyObjectUnchecked(pending, committed, copying);
      if ok {
        ok := DeleteObjectUnchecked(pending, removing);
      }
    }
  }

  function Promote(objects: Objects, pending: string, committed: string, copying: Fault, removing: Fault): (Objects, bool) {
    var (copied, ok) := CopyObject(objects, pending, committed, copying);
    if ok then DeleteObject(copied, pending, removing) else (copied, false)
  }

  // ---------- one submission ----------

  /** `Refused` remembers whether the refused put had nevertheless stored something. */
  datatype Phase = Accepted
                 | Refused(stored: bool)
                 | Held
                 | Promoting
                 | Removing
                 | Promoted
                 | PromotionFailed
                 | Discarding
                 | Discarded
                 | CleanupFailed

  datatype Row = Row(key: string, sha256: string)

  function PutPhase(sha: Hasher, objects: Objects, d: Stored, fault: Fault): (Objects, Phase) {
    var (after, stored) := PutObject(objects, d.pendingKey, d.body, fault);
    (after, if stored.Some? && sha(stored.value) == sha(d.body) then Held
            else Refused(d.pendingKey !in objects && d.pendingKey in after))
  }

  function SettleRows(sha: Hasher, rows: map<string, Row>, d: Stored, really: bool): map<string, Row> {
    if really then rows[d.id := Row(d.committedKey, sha(d.body))] else rows
  }

  function CopyPhase(objects: Objects, d: Stored, fault: Fault): (Objects, Phase) {
    var (after, ok) := CopyObject(objects, d.pendingKey, d.committedKey, fault);
    (after, if ok then Removing else PromotionFailed)
  }

  function RemovePhase(objects: Objects, d: Stored, fault: Fault): (Objects, Phase) {
    var (after, ok) := DeleteObject(objects, d.pendingKey, fault);
    (after, if ok then Promoted else PromotionFailed)
  }

  function DiscardPhase(objects: Objects, d: Stored, fault: Fault): (Objects, Phase) {
    var (after, ok) := DeleteObject(objects, d.pendingKey, fault);
    (after, if ok then Discarded else CleanupFailed)
  }

  /** What the custody wrapper does once it has been told whether the transaction committed. */
  function Ending(objects: Objects, d: Stored, reported: bool, copying: Fault, removing: Fault, discarding: Fault): (Objects, Phase) {
    if !reported then DiscardPhase(objects, d, discarding)
    else
      var (copied, phase) := CopyPhase(objects, d, copying);
      if phase == Removing then RemovePhase(copied, d, removing) else (copied, phase)
  }

  class Registry {
    const store: ObjectStore
    const sha: Hasher
    var rows: map<string, Row>

    constructor (store: ObjectStore, sha: Hasher)
      ensures this.store == store && this.sha == sha && rows == map[]
    {
      this.store, this.sha, rows := store, sha, map[];
    }

    method StoreVoterDocument(d: Stored, fault: Fault) returns (held: bool)
      modifies store
      ensures store.objects == PutPhase(sha, old(store.objects), d, fault).0
      ensures held <==> PutPhase(sha, old(store.objects), d, fault).1 == Held
      ensures held <==> d.pendingKey !in old(store.objects) && Succeeds(fault)
      ensures Adds(old(store.objects), d.pendingKey, d.body, fault, store.objects)
    {
      var stored := store.PutObjectIfAbsent(d.pendingKey, d.body, fault);
      return stored.Some? && sha(stored.value) == sha(d.body);
    }

    method CommitVoterDocument(d: Stored, copying: Fault, removing: Fault) returns (ok: bool)
      requires InNamespaces(d)
      modifies store
      ensures (store.objects, ok) == Promote(old(store.objects), d.pendingKey, d.committedKey, copying, removing)
      ensures Promotes(old(store.objects), d.pendingKey, d.committedKey, copying, removing, store.objects, ok)
    {
      ok := store.PromotePendingObject(d.pendingKey, d.committedKey, copying, removing);
    }

    method DiscardVoterDocument(d: Stored, fault: Fault) returns (discarded: bool)
      requires InNamespaces(d)
      modifies store
      ensures (store.objects, discarded) == DeleteObject(old(store.objects), d.pendingKey, fault)
    {
      discarded := store.DiscardPendingObject(d.pendingKey, fault);
    }

    method CleanUpAfterFailure(d: Stored, discarding: Fault) returns (phase: Phase)
      requires InNamespaces(d)
      modifies store
      ensures (store.objects, phase) == DiscardPhase(old(store.objects), d, discarding)
      ensures phase == (if Succeeds(discarding) then Discarded else CleanupFailed)
      ensures Removes(old(store.objects), d.pendingKey, discarding, store.objects)
    {
      var discarded := DiscardVoterDocument(d, discarding);
      phase := if discarded then Discarded else CleanupFailed;
    }

    method PromoteAfterCommit(d: Stored, copying: Fault, removing: Fault) returns (phase: Phase)
      requires InNamespaces(d)
      modifies store
      ensures (store.objects, phase) == Ending(old(store.objects), d, true, copying, removing, Fine)
      ensures phase in {Promoted, PromotionFailed}
      ensures Promotes(old(store.objects), d.pendingKey, d.committedKey, copying, removing, store.objects, phase == Promoted)
    {
      var promoted := CommitVoterDocument(d, copying, removing);
      phase := if promoted then Promoted else PromotionFailed;
    }

    /** `really` is whether the transaction committed its row, `reported` what the wrapper heard. */
    method WithVoterDocumentCustody(d: Stored, really: bool, reported: bool, copying: Fault, removing: Fault, discarding: Fault)
      returns (phase: Phase)
      requires InNamespaces(d)
      modifies this, store
      ensures rows == if really then old(rows)[d.id := Row(d.committedKey, sha(d.body))] else old(rows)
      ensures (store.objects, phase) == Ending(old(store.objects), d, reported, copying, removing, discarding)
      ensures reported ==>
        && phase in {Promoted, PromotionFailed}
        && Promotes(old(store.objects), d.pendingKey, d.committedKey, copying, removing, store.objects, phase == Promoted)
      ensures !reported ==>
        && phase == (if Succeeds(discarding) then Discarded else CleanupFailed)
        && Removes(old(store.objects), d.pendingKey, discarding, store.objects)
    {
      if really {
        rows := rows[d.id := Row(d.committedKey, sha(d.body))];
      }
      if reported {
        phase := PromoteAfterCommit(d, copying, removing);
      } else {
        phase := CleanUpAfterFailure(d, discarding);
      }
    }
  }

  // ---------- interleaved submissions ----------

  /** `putting` and `copying` remember what befell its put and its copy. */
  datatype Submission = Submission(source: Document, doc: Stored, phase: Phase, putting: Fault, copying: Fault)

  function Submitted(d: Document): Submission { Submission(d, Named(d), Accepted, Fine, Fine) }

  /** The bytes a submission's put left behind, and the bytes its copy did. */
  function KeptBytes(s: Submission): Bytes { Landed(s.doc.body, s.putting) }

  function CopiedBytes(s: Submission): Bytes { Landed(KeptBytes(s), s.copying) }

  datatype Vault = Vault(objects: Objects, rows: map<string, Row>, subs: seq<Submission>)

  /** Identifiers are fresh; each other move is one operation of one submission. */
  datatype Move = Submit(doc: Document)
                | Put(k: nat, fault: Fault)
                | Settle(k: nat, really: bool, reported: bool)
                | Copy(k: nat, fault: Fault)
                | Remove(k: nat, fault: Fault)
                | Discard(k: nat, fault: Fault)

  predicate IdTaken(subs: seq<Submission>, id: string) { exists s :: s in subs && s.doc.id == id }

  predicate Fresh(v: Vault, d: Document) { IsUuid(d.id) && 1 <= d.month <= 12 && !IdTaken(v.subs, d.id) }

  function Enter(v: Vault, k: nat, objects: Objects, s: Submission): Vault
    requires k < |v.subs|
  {
    v.(objects := objects, subs := v.subs[k := s])
  }

  function PutSub(sha: Hasher, objects: Objects, s: Submission, fault: Fault): (Objects, Submission) {
    var (after, phase) := PutPhase(sha, objects, s.doc, fault);
    (after, s.(phase := phase, putting := fault))
  }

  function CopySub(objects: Objects, s: Submission, fault: Fault): (Objects, Submission) {
    var (after, phase) := CopyPhase(objects, s.doc, fault);
    (after, s.(phase := phase, copying := fault))
  }

  function RemoveSub(objects: Objects, s: Submission, fault: Fault): (Objects, Submission) {
    var (after, phase) := RemovePhase(objects, s.doc, fault);
    (after, s.(phase := phase))
  }

  function DiscardSub(objects: Objects, s: Submission, fault: Fault): (Objects, Submission) {
    var (after, phase) := DiscardPhase(objects, s.doc, fault);
    (after, s.(phase := phase))
  }

  function SettledSub(s: Submission, reported: bool): Submission {
    s.(phase := if reported then Promoting else Discarding)
  }

  function Step(sha: Hasher, v: Vault, move: Move): Vault {
    match move
    case Submit(d) => if Fresh(v, d) then v.(subs := v.subs + [Submitted(d)]) else v
    case Put(k, fault) =>
      if k >= |v.subs| || v.subs[k].phase != Accepted then v
      else var (objects, s) := PutSub(sha, v.objects, v.subs[k], fault); Enter(v, k, objects, s)
    case Settle(k, really, reported) =>
      if k >= |v.subs| || v.subs[k].phase != Held then v
      else Enter(v, k, v.objects, SettledSub(v.subs[k], reported))
             .(rows := SettleRows(sha, v.rows, v.subs[k].doc, really))
    case Copy(k, fault) =>
      if k >= |v.subs| || v.subs[k].phase != Promoting then v
      else var (objects, s) := CopySub(v.objects, v.subs[k], fault); Enter(v, k, objects, s)
    case Remove(k, fault) =>
      if k >= |v.subs| || v.subs[k].phase != Removing then v
      else var (objects, s) := RemoveSub(v.objects, v.subs[k], fault); Enter(v, k, objects, s)
    case Discard(k, fault) =>
      if k >= |v.subs| || v.subs[k].phase != Discarding then v
      else var (objects, s) := DiscardSub(v.objects, v.subs[k], fault); Enter(v, k, objects, s)
  }

  function Run(sha: Hasher, v: Vault, moves: seq<Move>): Vault {
    if moves == [] then v else Step(sha, Run(sha, v, moves[..|moves| - 1]), moves[|moves| - 1])
  }

  /** The wrapper hears the truth about its transaction. */
  predicate Truthful(move: Move) { move.Settle? ==> move.really == move.reported }

  predicate Carries(sha: Hasher, objects: Objects, key: string, d: Stored) {
    key in objects && sha(objects[key]) == sha(d.body)
  }

  predicate HasRow(sha: Hasher, rows: map<string, Row>, d: Stored) {
    d.id in rows && rows[d.id] == Row(d.committedKey, sha(d.body))
  }

  predicate Holds(objects: Objects, key: string, bytes: Bytes) { key in objects && objects[key] == bytes }

  /** Where a submission's bytes and row are, phase by phase, and which bytes they are. */
  predicate Kept(sha: Hasher, objects: Objects, rows: map<string, Row>, s: Submission) {
    var d, pending, committed := s.doc, s.doc.pendingKey, s.doc.committedKey;
    match s.phase
    case Accepted => d.id !in rows && pending !in objects && committed !in objects
    case Refused(stored) => d.id !in rows && committed !in objects && (pending in objects <==> stored)
    case Held => d.id !in rows && committed !in objects && Holds(objects, pending, KeptBytes(s))
    case Promoting => HasRow(sha, rows, d) && committed !in objects && Holds(objects, pending, KeptBytes(s))
    case Removing =>
      HasRow(sha, rows, d) && Holds(objects, committed, CopiedBytes(s)) && Holds(objects, pending, KeptBytes(s))
    case Promoted => HasRow(sha, rows, d) && Holds(objects, committed, CopiedBytes(s)) && pending !in objects
    case PromotionFailed =>
      && HasRow(sha, rows, d) && (pending in objects || committed in objects)
      && (pending in objects ==> objects[pending] == KeptBytes(s))
      && (committed in objects ==> objects[committed] == CopiedBytes(s))
    case Discarding => d.id !in rows && committed !in objects && Holds(objects, pending, KeptBytes(s))
    case Discarded => d.id !in rows && committed !in objects && pending !in objects
    case CleanupFailed => d.id !in rows && committed !in objects
  }

  /** Every submission's keys are the ones the server names it by. */
  predicate WellNamed(subs: seq<Submission>) {
    forall s :: s in subs ==> s.doc == Named(s.source) && IsUuid(s.source.id) && 1 <= s.source.month <= 12
  }

  predicate Owned(subs: seq<Submission>, key: string) {
    exists s :: s in subs && (key == s.doc.pendingKey || key == s.doc.committedKey)
  }

  predicate AllApart(subs: seq<Submission>) {
    && (forall s :: s in subs ==> s.doc.pendingKey != s.doc.committedKey)
    && (forall i, j | 0 <= i < j < |subs| :: subs[i].doc.id != subs[j].doc.id && KeysApart(subs[i].doc, subs[j].doc))
  }

  /** Nothing is stored or recorded that no submission owns. */
  predicate AllOwned(v: Vault) {
    && (forall key :: key in v.objects ==> Owned(v.subs, key))
    && (forall id :: id in v.rows ==> IdTaken(v.subs, id))
  }

  predicate AllKept(sha: Hasher, v: Vault) {
    forall i {:trigger Kept(sha, v.objects, v.rows, v.subs[i])} ::
      0 <= i < |v.subs| ==> Kept(sha, v.objects, v.rows, v.subs[i])
  }

  predicate Inv(sha: Hasher, v: Vault) { AllApart(v.subs) && AllOwned(v) && AllKept(sha, v) }

  /** Stores that agree on everything but one document's two keys. */
  ghost predicate SameElsewhere(objects: Objects, after: Objects, d: Stored) {
    forall key :: key != d.pendingKey && key != d.committedKey ==>
      (key in after <==> key in objects) && (key in objects ==> after[key] == objects[key])
  }

  ghost predicate SameRows(rows: map<string, Row>, after: map<string, Row>, id: string) {
    forall other :: other != id ==> (other in after <==> other in rows) && (other in rows ==> after[other] == rows[other])
  }

  lemma IdsStay(v: Vault, k: nat, objects: Objects, s: Submission)
    requires k < |v.subs| && s.doc == v.subs[k].doc
    ensures forall id :: IdTaken(v.subs, id) ==> IdTaken(Enter(v, k, objects, s).subs, id)
    ensures forall key :: Owned(v.subs, key) ==> Owned(Enter(v, k, objects, s).subs, key)
  {
    var next := Enter(v, k, objects, s).subs;
    forall id | IdTaken(v.subs, id) ensures IdTaken(next, id) {
      var t :| t in v.subs && t.doc.id == id;
      var i :| 0 <= i < |v.subs| && v.subs[i] == t;
      assert next[i].doc == t.doc && next[i] in next;
    }
    forall key | Owned(v.subs, key) ensures Owned(next, key) {
      var t :| t in v.subs && (key == t.doc.pendingKey || key == t.doc.committedKey);
      var i :| 0 <= i < |v.subs| && v.subs[i] == t;
      assert next[i].doc == t.doc && next[i] in next;
    }
  }

  lemma EnterKeepsKept(sha: Hasher, v: Vault, k: nat, objects: Objects, rows: map<string, Row>, s: Submission)
    requires AllApart(v.subs) && AllKept(sha, v) && k < |v.subs| && s.doc == v.subs[k].doc
    requires SameElsewhere(v.objects, objects, v.subs[k].doc) && SameRows(v.rows, rows, v.subs[k].doc.id)
    requires Kept(sha, objects, rows, s)
    ensures AllKept(sha, Enter(v, k, objects, s).(rows := rows))
  {
    var d := v.subs[k].doc;
    var next := Enter(v, k, objects, s).(rows := rows);
    forall i | 0 <= i < |next.subs| ensures Kept(sha, next.objects, next.rows, next.subs[i]) {
      if i != k {
        assert Kept(sha, v.objects, v.rows, v.subs[i]);
        assert v.subs[i].doc.id != d.id && KeysApart(v.subs[i].doc, d) by {
          assert i < k || k < i;
        }
      }
    }
  }

  lemma EnterKeepsOwned(v: Vault, k: nat, objects: Objects, rows: map<string, Row>, s: Submission)
    requires AllOwned(v) && k < |v.subs| && s.doc == v.subs[k].doc
    requires SameElsewhere(v.objects, objects, v.subs[k].doc) && SameRows(v.rows, rows, v.subs[k].doc.id)
    ensures AllOwned(Enter(v, k, objects, s).(rows := rows))
  {
    var d, next := v.subs[k].doc, Enter(v, k, objects, s).(rows := rows);
    IdsStay(v, k, objects, s);
    assert v.subs[k] in v.subs && IdTaken(v.subs, d.id) && Owned(v.subs, d.pendingKey) && Owned(v.subs, d.committedKey);
    forall key | key in objects ensures Owned(next.subs, key) {
      if key != d.pendingKey && key != d.committedKey { assert key in v.objects; }
    }
  }

  /** One submission moves on; nothing but its own keys and row may change. */
  lemma EnterKeeps(sha: Hasher, v: Vault, k: nat, objects: Objects, rows: map<string, Row>, s: Submission)
    requires Inv(sha, v) && k < |v.subs| && s.doc == v.subs[k].doc
    requires SameElsewhere(v.objects, objects, v.subs[k].doc) && SameRows(v.rows, rows, v.subs[k].doc.id)
    requires Kept(sha, objects, rows, s)
    ensures Inv(sha, Enter(v, k, objects, s).(rows := rows))
  {
    EnterKeepsKept(sha, v, k, objects, rows, s);
    EnterKeepsOwned(v, k, objects, rows, s);
  }

  lemma SubmitApart(v: Vault, d: Document)
    requires AllApart(v.subs) && WellNamed(v.subs) && Fresh(v, d)
    ensures AllApart(v.subs + [Submitted(d)])
    ensures WellNamed(v.subs + [Submitted(d)])
    ensures forall s :: s in v.subs ==> KeysApart(s.doc, Named(d)) && s.doc.id != d.id
  {
    NamesApart(d, d);
    assert Named(d).pendingKey != Named(d).committedKey;
    forall s | s in v.subs ensures KeysApart(s.doc, Named(d)) && s.doc.id != d.id {
      NamesApart(s.source, d);
    }
  }

  lemma SubmitKeeps(sha: Hasher, v: Vault, entrant: Submission)
    requires Inv(sha, v) && entrant.phase == Accepted && AllApart(v.subs + [entrant])
    requires forall s :: s in v.subs ==> KeysApart(s.doc, entrant.doc) && s.doc.id != entrant.doc.id
    ensures Inv(sha, v.(subs := v.subs + [entrant]))
  {
    var next := v.(subs := v.subs + [entrant]);
    forall i | 0 <= i < |v.subs| ensures Kept(sha, next.objects, next.rows, next.subs[i]) {
      assert Kept(sha, v.objects, v.rows, v.subs[i]);
    }
    forall key | key in v.objects
      ensures Owned(next.subs, key) && key != entrant.doc.pendingKey && key != entrant.doc.committedKey
    {
      assert Owned(v.subs, key);
      var t :| t in v.subs && (key == t.doc.pendingKey || key == t.doc.committedKey);
      assert t in next.subs;
    }
    forall id | id in v.rows ensures IdTaken(next.subs, id) && id != entrant.doc.id {
      var t :| t in v.subs && t.doc.id == id;
      assert t in next.subs;
    }
  }

  lemma SettleKeeps(sha: Hasher, v: Vault, k: nat, really: bool)
    requires Inv(sha, v) && k < |v.subs| && v.subs[k].phase == Held
    ensures Inv(sha, Step(sha, v, Settle(k, really, really)))
  {
    assert Kept(sha, v.objects, v.rows, v.subs[k]);
    EnterKeeps(sha, v, k, v.objects, SettleRows(sha, v.rows, v.subs[k].doc, really), SettledSub(v.subs[k], really));
  }

  lemma PutKept(sha: Hasher, objects: Objects, rows: map<string, Row>, s: Submission, fault: Fault)
    requires s.phase == Accepted && Kept(sha, objects, rows, s) && s.doc.pendingKey != s.doc.committedKey
    ensures var (after, next) := PutSub(sha, objects, s, fault);
      SameElsewhere(objects, after, s.doc) && Kept(sha, after, rows, next)
  {
  }

  lemma PutKeeps(sha: Hasher, v: Vault, k: nat, fault: Fault)
    requires Inv(sha, v) && k < |v.subs| && v.subs[k].phase == Accepted
    ensures Inv(sha, Step(sha, v, Put(k, fault)))
  {
    assert Kept(sha, v.objects, v.rows, v.subs[k]) && v.subs[k] in v.subs;
    PutKept(sha, v.objects, v.rows, v.subs[k], fault);
    var next := Step(sha, v, Put(k, fault));
    EnterKeeps(sha, v, k, next.objects, v.rows, next.subs[k]);
  }

  lemma CopyKept(sha: Hasher, objects: Objects, rows: map<string, Row>, s: Submission, fault: Fault)
    requires s.phase == Promoting && Kept(sha, objects, rows, s) && s.doc.pendingKey != s.doc.committedKey
    ensures var (after, next) := CopySub(objects, s, fault);
      SameElsewhere(objects, after, s.doc) && Kept(sha, after, rows, next)
  {
  }

  lemma CopyKeeps(sha: Hasher, v: Vault, k: nat, fault: Fault)
    requires Inv(sha, v) && k < |v.subs| && v.subs[k].phase == Promoting
    ensures Inv(sha, Step(sha, v, Copy(k, fault)))
  {
    assert Kept(sha, v.objects, v.rows, v.subs[k]) && v.subs[k] in v.subs;
    CopyKept(sha, v.objects, v.rows, v.subs[k], fault);
    var next := Step(sha, v, Copy(k, fault));
    EnterKeeps(sha, v, k, next.objects, v.rows, next.subs[k]);
  }

  lemma RemoveKept(sha: Hasher, objects: Objects, rows: map<string, Row>, s: Submission, fault: Fault)
    requires s.phase == Removing && Kept(sha, objects, rows, s) && s.doc.pendingKey != s.doc.committedKey
    ensures var (after, next) := RemoveSub(objects, s, fault);
      SameElsewhere(objects, after, s.doc) && Kept(sha, after, rows, next)
  {
  }

  lemma RemoveKeeps(sha: Hasher, v: Vault, k: nat, fault: Fault)
    requires Inv(sha, v) && k < |v.subs| && v.subs[k].phase == Removing
    ensures Inv(sha, Step(sha, v, Remove(k, fault)))
  {
    assert Kept(sha, v.objects, v.rows, v.subs[k]) && v.subs[k] in v.subs;
    RemoveKept(sha, v.objects, v.rows, v.subs[k], fault);
    var next := Step(sha, v, Remove(k, fault));
    EnterKeeps(sha, v, k, next.objects, v.rows, next.subs[k]);
  }

  lemma DiscardKept(sha: Hasher, objects: Objects, rows: map<string, Row>, s: Submission, fault: Fault)
    requires s.phase == Discarding && Kept(sha, objects, rows, s) && s.doc.pendingKey != s.doc.committedKey
    ensures var (after, next) := DiscardSub(objects, s, fault);
      SameElsewhere(objects, after, s.doc) && Kept(sha, after, rows, next)
  {
  }

  lemma DiscardKeeps(sha: Hasher, v: Vault, k: nat, fault: Fault)
    requires Inv(sha, v) && k < |v.subs| && v.subs[k].phase == Discarding
    ensures Inv(sha, Step(sha, v, Discard(k, fault)))
  {
    assert Kept(sha, v.objects, v.rows, v.subs[k]) && v.subs[k] in v.subs;
    DiscardKept(sha, v.objects, v.rows, v.subs[k], fault);
    var next := Step(sha, v, Discard(k, fault));
    EnterKeeps(sha, v, k, next.objects, v.rows, next.subs[k]);
  }

  lemma NamedAgain(subs: seq<Submission>, k: nat, s: Submission)
    requires WellNamed(subs) && k < |subs| && s.doc == subs[k].doc && s.source == subs[k].source
    ensures WellNamed(subs[k := s])
  {
    assert subs[k] in subs;
    forall t | t in subs[k := s] ensures t == s || t in subs {
    }
  }

  lemma SubsAfter(sha: Hasher, v: Vault, move: Move) returns (s: Submission)
    requires !move.Submit? && move.k < |v.subs|
    ensures s.doc == v.subs[move.k].doc && s.source == v.subs[move.k].source && Step(sha, v, move).subs == v.subs[move.k := s]
  {
    s := Step(sha, v, move).subs[move.k];
  }

  /** Names never change once given. */
  lemma NamesStay(sha: Hasher, v: Vault, move: Move)
    requires WellNamed(v.subs) && !move.Submit?
    ensures WellNamed(Step(sha, v, move).subs)
  {
    if move.k < |v.subs| {
      var s := SubsAfter(sha, v, move);
      NamedAgain(v.subs, move.k, s);
    }
  }

  lemma StepKeeps(sha: Hasher, v: Vault, move: Move)
    requires Inv(sha, v) && WellNamed(v.subs) && Truthful(move)
    ensures Inv(sha, Step(sha, v, move))
  {
    match move
    case Submit(d) =>
      if Fresh(v, d) {
        SubmitApart(v, d);
        SubmitKeeps(sha, v, Submitted(d));
      }
    case Put(k, fault) => if k < |v.subs| && v.subs[k].phase == Accepted { PutKeeps(sha, v, k, fault); }
    case Settle(k, really, reported) => if k < |v.subs| && v.subs[k].phase == Held { SettleKeeps(sha, v, k, really); }
    case Copy(k, fault) => if k < |v.subs| && v.subs[k].phase == Promoting { CopyKeeps(sha, v, k, fault); }
    case Remove(k, fault) => if k < |v.subs| && v.subs[k].phase == Removing { RemoveKeeps(sha, v, k, fault); }
    case Discard(k, fault) => if k < |v.subs| && v.subs[k].phase == Discarding { DiscardKeeps(sha, v, k, fault); }
  }

  /** However submissions interleave and whichever operations fail, as long as each wrapper hears
      the truth about its transaction. */
  lemma {:induction false} CustodyHolds(sha: Hasher, v: Vault, moves: seq<Move>)
    requires Inv(sha, v) && WellNamed(v.subs) && forall m :: m in moves ==> Truthful(m)
    ensures Inv(sha, Run(sha, v, moves)) && WellNamed(Run(sha, v, moves).subs)
  {
    if moves != [] {
      CustodyHolds(sha, v, moves[..|moves| - 1]);
      var before, move := Run(sha, v, moves[..|moves| - 1]), moves[|moves| - 1];
      StepKeeps(sha, before, move);
      NamesKept(sha, before, move);
    }
  }

  lemma NamesKept(sha: Hasher, v: Vault, move: Move)
    requires Inv(sha, v) && WellNamed(v.subs)
    ensures WellNamed(Step(sha, v, move).subs)
  {
    if !move.Submit? {
      NamesStay(sha, v, move);
    } else if Fresh(v, move.doc) {
      SubmitApart(v, move.doc);
    }
  }

  // ---------- what that means ----------

  /** The operation left bytes of another hash than those of the document. */
  predicate Damages(sha: Hasher, d: Stored, fault: Fault) { fault.Corrupts? && sha(fault.bytes) != sha(d.body) }

  /** What was copied carries the document's hash no longer: the copy damaged it, or copied a damaged object. */
  predicate DamagedCopy(sha: Hasher, s: Submission) {
    Damages(sha, s.doc, s.copying) || (!s.copying.Corrupts? && Damages(sha, s.doc, s.putting))
  }

  /** A committed row's object is there, at the pending or the committed key, and carries the recorded
      hash unless the put or the copy left other bytes - which neither of them notices. */
  lemma CommittedBytesArePresent(sha: Hasher, v: Vault, k: nat)
    requires Inv(sha, v) && k < |v.subs| && v.subs[k].doc.id in v.rows
    ensures var s, d := v.subs[k], v.subs[k].doc;
      && HasRow(sha, v.rows, d)
      && (d.pendingKey in v.objects || d.committedKey in v.objects)
      && (d.pendingKey in v.objects ==> (Carries(sha, v.objects, d.pendingKey, d) <==> !Damages(sha, d, s.putting)))
      && (d.committedKey in v.objects ==> (Carries(sha, v.objects, d.committedKey, d) <==> !DamagedCopy(sha, s)))
  {
    assert Kept(sha, v.objects, v.rows, v.subs[k]);
  }

  /** No operation of a run leaves other bytes. */
  predicate Undamaging(move: Move) { move.Put? || move.Copy? ==> !move.fault.Corrupts? }

  predicate Undamaged(subs: seq<Submission>) {
    forall s :: s in subs ==> !s.putting.Corrupts? && !s.copying.Corrupts?
  }

  lemma {:induction false} StaysUndamaged(sha: Hasher, v: Vault, moves: seq<Move>)
    requires Undamaged(v.subs) && forall m :: m in moves ==> Undamaging(m)
    ensures Undamaged(Run(sha, v, moves).subs)
  {
    if moves != [] {
      StaysUndamaged(sha, v, moves[..|moves| - 1]);
      var before, move := Run(sha, v, moves[..|moves| - 1]), moves[|moves| - 1];
      assert Undamaging(move);
      if !move.Submit? && move.k < |before.subs| { assert before.subs[move.k] in before.subs; }
    }
  }

  /** While operations fail but never alter bytes, a committed row's bytes are there under its hash. */
  lemma UndamagedRowsCarry(sha: Hasher, v: Vault, moves: seq<Move>, k: nat)
    requires Inv(sha, v) && WellNamed(v.subs) && Undamaged(v.subs)
    requires forall m :: m in moves ==> Truthful(m) && Undamaging(m)
    requires k < |Run(sha, v, moves).subs| && Run(sha, v, moves).subs[k].doc.id in Run(sha, v, moves).rows
    ensures var done := Run(sha, v, moves);
      var d := done.subs[k].doc;
      && HasRow(sha, done.rows, d)
      && (Carries(sha, done.objects, d.pendingKey, d) || Carries(sha, done.objects, d.committedKey, d))
  {
    CustodyHolds(sha, v, moves);
    StaysUndamaged(sha, v, moves);
    CommittedBytesArePresent(sha, Run(sha, v, moves), k);
  }

  predicate Over(phase: Phase) {
    phase.Refused? || phase.Promoted? || phase.PromotionFailed? || phase.Discarded? || phase.CleanupFailed?
  }

  /** A finished submission without a row has left nothing, or its cleanup failure is reported, or
      its put was refused although it had stored something - the one leak nobody hears of. */
  lemma UncommittedLeavesNothing(sha: Hasher, v: Vault, k: nat)
    requires Inv(sha, v) && k < |v.subs| && Over(v.subs[k].phase) && v.subs[k].doc.id !in v.rows
    ensures var d, phase := v.subs[k].doc, v.subs[k].phase;
      && d.committedKey !in v.objects
      && (d.pendingKey !in v.objects || phase == CleanupFailed || phase == Refused(true))
      && (phase == Refused(true) ==> d.pendingKey in v.objects)
  {
    assert Kept(sha, v.objects, v.rows, v.subs[k]);
  }

  /** A put of a fresh document is held iff the store reports success, whatever bytes it kept: the hash
      in the receipt is that of the bytes sent, so comparing it refuses nothing. It is refused and
      leaves its bytes behind iff it failed after its effect. */
  lemma RefusedPutLeaksIff(sha: Hasher, v: Vault, k: nat, fault: Fault)
    requires Inv(sha, v) && k < |v.subs| && v.subs[k].phase == Accepted
    ensures var d, after := v.subs[k].doc, Step(sha, v, Put(k, fault));
      && (after.subs[k].phase == Held <==> fault == Fine || fault.Corrupts?)
      && (after.subs[k].phase.Refused? && d.pendingKey in after.objects <==> fault == FailsAfter)
  {
    assert Kept(sha, v.objects, v.rows, v.subs[k]);
  }

  /** No object outside the pending namespace is ever deleted or overwritten, truthful wrappers or not. */
  lemma {:induction false} CommittedObjectsStay(sha: Hasher, v: Vault, moves: seq<Move>, key: string)
    requires key in v.objects && !IsPendingObjectKey(key) && AllPending(v.subs)
    ensures var done := Run(sha, v, moves);
      key in done.objects && done.objects[key] == v.objects[key] && AllPending(done.subs)
  {
    if moves != [] {
      CommittedObjectsStay(sha, v, moves[..|moves| - 1], key);
      StepStays(sha, Run(sha, v, moves[..|moves| - 1]), moves[|moves| - 1], key);
    }
  }

  predicate AllPending(subs: seq<Submission>) { forall s :: s in subs ==> IsPendingObjectKey(s.doc.pendingKey) }

  lemma StepStays(sha: Hasher, v: Vault, move: Move, key: string)
    requires key in v.objects && !IsPendingObjectKey(key) && AllPending(v.subs)
    ensures var next := Step(sha, v, move);
      key in next.objects && next.objects[key] == v.objects[key] && AllPending(next.subs)
  {
    if move.Submit? {
      PendingNamespace(move.doc);
    } else if move.k < |v.subs| {
      assert v.subs[move.k] in v.subs && key != v.subs[move.k].doc.pendingKey;
    }
  }

  /** Once settled and finished without faults, the row is there iff the transaction committed it and
      the object iff the wrapper was told so, with the bytes the put left: row and object agree exactly
      when the wrapper heard the truth. */
  lemma CustodyFollowsTheReport(sha: Hasher, v: Vault, k: nat, really: bool, reported: bool)
    requires Inv(sha, v) && k < |v.subs| && v.subs[k].phase == Held
    ensures var s, d := v.subs[k], v.subs[k].doc;
      var settled := Step(sha, v, Settle(k, really, reported));
      var objects := Ending(settled.objects, d, reported, Fine, Fine, Fine).0;
      && (d.id in settled.rows <==> really)
      && (d.committedKey in objects <==> reported)
      && (Carries(sha, objects, d.committedKey, d) <==> reported && !Damages(sha, d, s.putting))
      && d.pendingKey !in objects
      && ((d.id in settled.rows <==> d.committedKey in objects) <==> really == reported)
  {
    assert Kept(sha, v.objects, v.rows, v.subs[k]) && v.subs[k] in v.subs;
  }

  /** The wrapper's ending is the interleaved submission's own moves, made without interruption. */
  lemma EndingIsTheMoves(sha: Hasher, v: Vault, k: nat, reported: bool, copying: Fault, removing: Fault, discarding: Fault)
    requires k < |v.subs| && v.subs[k].phase == if reported then Promoting else Discarding
    ensures var ended := Step(sha, Step(sha, Step(sha, v, Discard(k, discarding)), Copy(k, copying)), Remove(k, removing));
      (ended.objects, ended.subs[k].phase) == Ending(v.objects, v.subs[k].doc, reported, copying, removing, discarding)
  {
  }

  // ---------- serving a document ----------

  datatype Record = Record(bucket: Option<string>, receivedAt: Option<nat>, key: string, sha256: string)

  predicate IsServableCustody(r: Record) {
    && r.bucket.Some? && r.bucket.value != "" && r.receivedAt.Some?
    && !IsPendingObjectKey(r.key) && COMMITTED_PREFIX + "/" <= r.key
  }

  datatype Shortfall = NoBucket | NoReceiptTime | StillPending | OutsideNamespace

  function DescribeIncompleteCustody(r: Record): Shortfall {
    if r.bucket.None? || r.bucket.value == "" then NoBucket
    else if r.receivedAt.None? then NoReceiptTime
    else if IsPendingObjectKey(r.key) then StillPending
    else OutsideNamespace
  }

  datatype Access = Granted(bytes: Bytes) | NeverStored(reason: Shortfall) | ObjectMissing | HashMismatch

  /** The access route: what is shown is read again and its hash compared with the row's. */
  method ServeDocument(store: ObjectStore, sha: Hasher, r: Record) returns (access: Access)
    ensures access.NeverStored? <==> r.bucket in {None, Some("")} || r.receivedAt.None? || !IsCommittedObjectKey(r.key)
    ensures access.NeverStored? ==>
      && (access.reason == NoBucket <==> r.bucket in {None, Some("")})
      && (access.reason == NoReceiptTime <==> r.bucket !in {None, Some("")} && r.receivedAt.None?)
      && (access.reason == StillPending <==> r.bucket !in {None, Some("")} && r.receivedAt.Some? && IsPendingObjectKey(r.key))
      && (access.reason == OutsideNamespace <==> r.bucket !in {None, Some("")} && r.receivedAt.Some? && !IsPendingObjectKey(r.key))
    ensures access.ObjectMissing? <==> !access.NeverStored? && r.key !in store.objects
    ensures access.Granted? <==> !access.NeverStored? && r.key in store.objects && sha(store.objects[r.key]) == r.sha256
    ensures access.Granted? ==> access.bytes == store.objects[r.key]
  {
    if !IsServableCustody(r) {
      return NeverStored(DescribeIncompleteCustody(r));
    }
    var stored := store.GetObject(r.key);
    match stored
    case None => return ObjectMissing;
    case Some(bytes) => return if sha(bytes) == r.sha256 then Granted(bytes) else HashMismatch;
  }

  /** A row written by this path, with the bucket and the receipt time the server recorded. */
  function Recorded(row: Row, bucket: Option<string>, receivedAt: Option<nat>): Record {
    Record(bucket, receivedAt, row.key, row.sha256)
  }

  /** A row written by this path is servable iff the server recorded a bucket and a receipt time;
      the description then always names what is missing. */
  lemma OwnRowsAreServable(sha: Hasher, v: Vault, k: nat, bucket: Option<string>, receivedAt: Option<nat>)
    requires Inv(sha, v) && WellNamed(v.subs) && k < |v.subs| && v.subs[k].doc.id in v.rows
    ensures var r := Recorded(v.rows[v.subs[k].doc.id], bucket, receivedAt);
      && (IsServableCustody(r) <==> bucket.Some? && bucket.value != "" && receivedAt.Some?)
      && (!IsServableCustody(r) ==> DescribeIncompleteCustody(r) in {NoBucket, NoReceiptTime})
  {
    CommittedBytesArePresent(sha, v, k);
    assert v.subs[k] in v.subs;
    CommittedNamespace(v.subs[k].source);
  }

  /** In any reachable state a servable row is shown iff its document has been copied to the committed
      key and neither the put nor the copy left other bytes: the damage they let pass is caught here. */
  lemma ShownIffCopiedUndamaged(sha: Hasher, v: Vault, k: nat, bucket: Option<string>, receivedAt: Option<nat>)
    requires Inv(sha, v) && WellNamed(v.subs) && k < |v.subs| && v.subs[k].doc.id in v.rows
    ensures var s, r := v.subs[k], Recorded(v.rows[v.subs[k].doc.id], bucket, receivedAt);
      IsServableCustody(r) && r.key in v.objects && sha(v.objects[r.key]) == r.sha256 <==>
        && bucket.Some? && bucket.value != "" && receivedAt.Some?
        && s.doc.committedKey in v.objects && !DamagedCopy(sha, s)
  {
    CommittedBytesArePresent(sha, v, k);
    OwnRowsAreServable(sha, v, k, bucket, receivedAt);
  }

  lemma RunSnoc(sha: Hasher, v: Vault, moves: seq<Move>, move: Move)
    ensures Run(sha, v, moves + [move]) == Step(sha, Run(sha, v, moves), move)
  {
    assert (moves + [move])[..|moves|] == moves;
  }

  lemma RunFive(sha: Hasher, v: Vault, a: Move, b: Move, c: Move, d: Move, e: Move)
    ensures Run(sha, v, [a, b, c, d, e]) == Step(sha, Step(sha, Step(sha, Step(sha, Step(sha, v, a), b), c), d), e)
  {
    RunSnoc(sha, v, [], a);
    RunSnoc(sha, v, [a], b);
    RunSnoc(sha, v, [a, b], c);
    RunSnoc(sha, v, [a, b, c], d);
    RunSnoc(sha, v, [a, b, c, d], e);
    assert [] + [a] == [a] && [a] + [b] == [a, b] && [a, b] + [c] == [a, b, c];
    assert [a, b, c] + [d] == [a, b, c, d] && [a, b, c, d] + [e] == [a, b, c, d, e];
  }

  /** One submission with the store to itself: its put leaves other bytes, nothing else goes wrong. */
  function DamagedSteps(sha: Hasher, v: Vault, bytes: Bytes): Vault {
    var held := Step(sha, Step(sha, v, Put(0, Corrupts(bytes))), Settle(0, true, true));
    Step(sha, Step(sha, held, Copy(0, Fine)), Remove(0, Fine))
  }

  lemma DamagedStepsPromote(sha: Hasher, s: Submission, bytes: Bytes)
    requires s.phase == Accepted && s.doc.pendingKey != s.doc.committedKey
    ensures DamagedSteps(sha, Vault(map[], map[], [s]), bytes) ==
      Vault(map[s.doc.committedKey := bytes], map[s.doc.id := Row(s.doc.committedKey, sha(s.doc.body))],
            [s.(phase := Promoted, putting := Corrupts(bytes), copying := Fine)])
  {
    var put := Step(sha, Vault(map[], map[], [s]), Put(0, Corrupts(bytes)));
    assert put == Vault(map[s.doc.pendingKey := bytes], map[], [s.(phase := Held, putting := Corrupts(bytes))]);
  }

  /** Damage is accepted: one submission whose put left other bytes is promoted with every step
      reporting success, and its row names a hash the committed object does not have. */
  lemma DamageIsAccepted(sha: Hasher, d: Document, bytes: Bytes)
    requires IsUuid(d.id) && 1 <= d.month <= 12 && sha(bytes) != sha(d.body)
    ensures var v := Run(sha, Vault(map[], map[], []),
                         [Submit(d), Put(0, Corrupts(bytes)), Settle(0, true, true), Copy(0, Fine), Remove(0, Fine)]);
      && |v.subs| == 1 && v.subs[0].phase == Promoted && HasRow(sha, v.rows, Named(d))
      && v.objects == map[CommittedKey(d) := bytes] && !Carries(sha, v.objects, CommittedKey(d), Named(d))
  {
    NamesApart(d, d);
    var empty, put := Vault(map[], map[], []), Put(0, Corrupts(bytes));
    assert Step(sha, empty, Submit(d)) == Vault(map[], map[], [Submitted(d)]);
    DamagedStepsPromote(sha, Submitted(d), bytes);
    RunFive(sha, empty, Submit(d), put, Settle(0, true, true), Copy(0, Fine), Remove(0, Fine));
  }
}
