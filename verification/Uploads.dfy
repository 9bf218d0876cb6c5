/** Content-addressed artifacts: any number of uploaders interleave over one object store,
    which creates objects exclusively, and one table of rows. */
module Uploads {
  import opened Text

  type Bytes = seq<bv8>
  type Hasher = Bytes -> string

  datatype Error = BadLimit | BadExpectation | TooLarge | Integrity | Missing

  // ---- hashes and keys ----

  predicate IsHexDigit(c: char) {
    IsDigit(c) || 'a' <= c <= 'f'
  }

  predicate IsSha256(s: string) {
    |s| == 64 && forall i | 0 <= i < |s| :: IsHexDigit(s[i])
  }

  /** Digests are well formed; nothing else is assumed, so two contents may share one. */
  ghost predicate WellFormed(hash: Hasher) {
    forall b: Bytes :: IsSha256(hash(b))
  }

  function ObjectKey(sha256: string): string
    requires IsSha256(sha256)
  {
    "artifacts/sha256/" + sha256[..2] + "/" + sha256
  }

  lemma ObjectKeyInjective(a: string, b: string)
    requires IsSha256(a) && IsSha256(b) && ObjectKey(a) == ObjectKey(b)
    ensures a == b
  {
    assert |ObjectKey(a)| == |ObjectKey(b)|;
    assert ObjectKey(a)[|ObjectKey(a)| - 64..] == a;
    assert ObjectKey(b)[|ObjectKey(b)| - 64..] == b;
  }

  // ---- receiving ----

  datatype Request = Request(chunks: seq<Bytes>, expectedSha256: Option<string>, expectedSize: Option<int>,
                             maxBytes: int)

  datatype Received = Received(bytes: Bytes) | Refused(error: Error)

  function Concat(chunks: seq<Bytes>): Bytes {
    if chunks == [] then [] else Concat(chunks[..|chunks| - 1]) + chunks[|chunks| - 1]
  }

  predicate Sane(request: Request) {
    && (request.expectedSha256.Some? ==> IsSha256(request.expectedSha256.value))
    && (request.expectedSize.Some? ==> request.expectedSize.value >= 0)
  }

  predicate Expected(request: Request, sha256: string, size: nat) {
    && (request.expectedSha256.Some? ==> request.expectedSha256.value == sha256)
    && (request.expectedSize.Some? ==> request.expectedSize.value == size)
  }

  /** What an upload receives, told from the whole content. */
  function Reception(hash: Hasher, request: Request): Received {
    var content := Concat(request.chunks);
    if request.maxBytes < 0 then Refused(BadLimit)
    else if !Sane(request) then Refused(BadExpectation)
    else if |content| > request.maxBytes then Refused(TooLarge)
    else if !Expected(request, hash(content), |content|) then Refused(BadExpectation)
    else Received(content)
  }

  /** An upload is accepted, with its whole content, exactly when the content is within the
      limit and has the digest and the size that are expected of it, if any are. */
  lemma AcceptedExactly(hash: Hasher, request: Request)
    requires WellFormed(hash)
    ensures var content := Concat(request.chunks);
            Reception(hash, request) == Received(content)
            <==> && |content| <= request.maxBytes
                 && request.expectedSha256 in {None, Some(hash(content))}
                 && request.expectedSize in {None, Some(|content|)}
    ensures Reception(hash, request) == Refused(TooLarge) ==>
              0 <= request.maxBytes < |Concat(request.chunks)|
    ensures Reception(hash, request) == Refused(BadLimit) <==> request.maxBytes < 0
  {
  }

  lemma {:induction false} ConcatGrows(chunks: seq<Bytes>, n: nat)
    requires n <= |chunks|
    ensures |Concat(chunks[..n])| <= |Concat(chunks)|
    decreases |chunks|
  {
    if n < |chunks| {
      ConcatGrows(chunks[..|chunks| - 1], n);
      assert chunks[..|chunks| - 1][..n] == chunks[..n];
    } else {
      assert chunks[..n] == chunks;
    }
  }

  /** The receiving half of `store_artifact_chunks`: it stops at the first chunk that crosses
      the limit. */
  method Receive(hash: Hasher, request: Request) returns (r: Received)
    ensures r == Reception(hash, request)
  {
    if request.maxBytes < 0 {
      return Refused(BadLimit);
    }
    if !Sane(request) {
      return Refused(BadExpectation);
    }
    var bytes: Bytes, byteSize := [], 0;
    for i := 0 to |request.chunks|
      invariant bytes == Concat(request.chunks[..i]) && byteSize == |bytes| <= request.maxBytes
    {
      TakeNext(request.chunks, i);
      ConcatGrows(request.chunks, i + 1);
      byteSize := byteSize + |request.chunks[i]|;
      if byteSize > request.maxBytes {
        return Refused(TooLarge);
      }
      bytes := bytes + request.chunks[i];
    }
    assert request.chunks[..|request.chunks|] == request.chunks;
    if !Expected(request, hash(bytes), byteSize) {
      return Refused(BadExpectation);
    }
    return Received(bytes);
  }

  // ---- storing, as atomic steps ----

  datatype Row = Row(id: nat, sha256: string, byteSize: nat, objectKey: string)

  /** Where an uploader is in `store_artifact_chunks`. */
  datatype Phase =
    | Checking
    | Persisting
    | VerifyingPath
    | Creating
    | Refetching
    | Verifying(row: Row, created: bool)
    | Done(row: Row, created: bool)
    | Failed(error: Error)
    | Abandoned

  datatype Upload = Upload(id: nat, bytes: Bytes, phase: Phase)

  datatype World = World(objects: map<string, Bytes>, rows: seq<Row>, uploads: seq<Upload>)

  /** The first row with the digest. */
  function FindRow(rows: seq<Row>, sha256: string): (r: Option<Row>)
    ensures r.Some? ==> r.value in rows && r.value.sha256 == sha256
    ensures r.None? ==> forall row | row in rows :: row.sha256 != sha256
  {
    if rows == [] then None
    else if rows[0].sha256 == sha256 then Some(rows[0])
    else FindRow(rows[1..], sha256)
  }

  /** The table has unique digests, unique identifiers and unique object keys. */
  predicate Conflicts(rows: seq<Row>, row: Row) {
    exists r | r in rows :: r.sha256 == row.sha256 || r.id == row.id || r.objectKey == row.objectKey
  }

  function NewRow(hash: Hasher, u: Upload): Row
    requires IsSha256(hash(u.bytes))
  {
    Row(u.id, hash(u.bytes), |u.bytes|, ObjectKey(hash(u.bytes)))
  }

  /** The object has the digest and the size. */
  predicate ObjectMatches(hash: Hasher, objects: map<string, Bytes>, key: string, sha256: string, size: nat) {
    key in objects && hash(objects[key]) == sha256 && |objects[key]| == size
  }

  /** `verify_artifact` accepts the row. */
  predicate RowVerifies(hash: Hasher, objects: map<string, Bytes>, row: Row) {
    IsSha256(row.sha256) && ObjectMatches(hash, objects, row.objectKey, row.sha256, row.byteSize)
  }

  function Enter(w: World, i: nat, phase: Phase): World
    requires i < |w.uploads|
  {
    w.(uploads := w.uploads[i := w.uploads[i].(phase := phase)])
  }

  /** The next atomic step of uploader `i`. */
  function Step(hash: Hasher, w: World, i: nat): World
    requires i < |w.uploads| && IsSha256(hash(w.uploads[i].bytes))
  {
    var u := w.uploads[i];
    var sha256 := hash(u.bytes);
    var key := ObjectKey(sha256);
    match u.phase
    case Checking =>
      var found := FindRow(w.rows, sha256);
      Enter(w, i, if found.Some? then Verifying(found.value, false) else Persisting)
    case Persisting =>
      if key in w.objects then Enter(w, i, VerifyingPath)
      else Enter(w.(objects := w.objects[key := u.bytes]), i, Creating)
    case VerifyingPath =>
      Enter(w, i, if ObjectMatches(hash, w.objects, key, sha256, |u.bytes|) then Creating else Failed(Integrity))
    case Creating =>
      var row := NewRow(hash, u);
      if Conflicts(w.rows, row) then Enter(w, i, Refetching)
      else Enter(w.(rows := w.rows + [row]), i, Verifying(row, true))
    case Refetching =>
      var found := FindRow(w.rows, sha256);
      Enter(w, i, if found.Some? then Verifying(found.value, false) else Failed(Missing))
    case Verifying(row, created) =>
      Enter(w, i, if RowVerifies(hash, w.objects, row) then Done(row, created) else Failed(Integrity))
    case _ => w
  }

  /** An upper bound on the steps an uploader still takes. */
  function StepsLeft(phase: Phase): nat {
    match phase
    case Checking => 6
    case Persisting => 5
    case VerifyingPath => 4
    case Creating => 3
    case Refetching => 2
    case Verifying(_, _) => 1
    case _ => 0
  }

  datatype Action = Begin(id: nat, request: Request) | Advance(index: nat) | Abandon(index: nat)

  /** One action of a run: a request arrives and is received, an uploader takes a step, or an
      uploader disappears. */
  function Act(hash: Hasher, w: World, a: Action): World
    requires a.Advance? && a.index < |w.uploads| ==> IsSha256(hash(w.uploads[a.index].bytes))
  {
    match a
    case Begin(id, request) =>
      var received := Reception(hash, request);
      if received.Received? then w.(uploads := w.uploads + [Upload(id, received.bytes, Checking)]) else w
    case Advance(i) => if i < |w.uploads| then Step(hash, w, i) else w
    case Abandon(i) =>
      if i < |w.uploads| && StepsLeft(w.uploads[i].phase) > 0 then Enter(w, i, Abandoned) else w
  }

  const EMPTY := World(map[], [], [])

  ghost function Run(hash: Hasher, actions: seq<Action>): World
    requires WellFormed(hash)
  {
    if actions == [] then EMPTY else Act(hash, Run(hash, actions[..|actions| - 1]), actions[|actions| - 1])
  }

  // ---- the invariant ----

  /** Every object is stored under the key of its own digest. */
  ghost predicate ObjectsOk(hash: Hasher, objects: map<string, Bytes>)
    requires WellFormed(hash)
  {
    forall key | key in objects :: key == ObjectKey(hash(objects[key]))
  }

  ghost predicate RowsOk(hash: Hasher, w: World) {
    forall row | row in w.rows :: RowOk(hash, w.objects, row)
  }

  /** The row's digest and size are those of its object, which is under the digest's key. */
  ghost predicate RowOk(hash: Hasher, objects: map<string, Bytes>, row: Row) {
    RowVerifies(hash, objects, row) && row.objectKey == ObjectKey(row.sha256)
  }

  /** No digest and no identifier has two rows. */
  ghost predicate RowsUnique(rows: seq<Row>) {
    forall i, j | 0 <= i < j < |rows| :: rows[i].sha256 != rows[j].sha256 && rows[i].id != rows[j].id
  }

  /** The uploader has tried to create its row, or will not any more. */
  predicate PastCreation(phase: Phase) {
    phase.Verifying? || phase.Done? || phase.Failed? || phase.Abandoned?
  }

  /** Each row was created by an uploader, under that uploader's identifier. */
  ghost predicate Created(w: World, row: Row) {
    exists i | 0 <= i < |w.uploads| :: w.uploads[i].id == row.id && PastCreation(w.uploads[i].phase)
  }

  ghost predicate CreatorsOk(w: World) {
    forall row | row in w.rows :: Created(w, row)
  }

  ghost predicate IdTaken(rows: seq<Row>, id: nat) {
    exists row | row in rows :: row.id == id
  }

  /** The upload's digest is that of an object of another size. */
  ghost predicate SizeClash(hash: Hasher, objects: map<string, Bytes>, bytes: Bytes) {
    exists key | key in objects :: hash(objects[key]) == hash(bytes) && |objects[key]| != |bytes|
  }

  ghost predicate UploadOk(hash: Hasher, w: World, u: Upload)
    requires WellFormed(hash)
  {
    var sha256 := hash(u.bytes);
    match u.phase
    case Checking => true
    case Persisting => true
    case VerifyingPath => ObjectKey(sha256) in w.objects
    case Creating => ObjectMatches(hash, w.objects, ObjectKey(sha256), sha256, |u.bytes|)
    case Refetching => FindRow(w.rows, sha256).Some? || IdTaken(w.rows, u.id)
    case Verifying(row, created) => Holds(w, u, sha256, row, created)
    case Done(row, created) => Holds(w, u, sha256, row, created)
    case Failed(error) =>
      if error == Integrity then SizeClash(hash, w.objects, u.bytes) else error == Missing && IdTaken(w.rows, u.id)
    case Abandoned => true
  }

  ghost predicate Holds(w: World, u: Upload, sha256: string, row: Row, created: bool) {
    row in w.rows && row.sha256 == sha256 && (created ==> row.id == u.id && row.byteSize == |u.bytes|)
  }

  ghost predicate UploadsOk(hash: Hasher, w: World)
    requires WellFormed(hash)
  {
    forall i | 0 <= i < |w.uploads| :: UploadOk(hash, w, w.uploads[i])
  }

  ghost predicate Inv(hash: Hasher, w: World) {
    && WellFormed(hash) && ObjectsOk(hash, w.objects) && RowsOk(hash, w)
    && RowsUnique(w.rows) && CreatorsOk(w) && UploadsOk(hash, w)
  }

  /** Objects are never changed or removed, and rows are only appended. */
  ghost predicate Extends(w: World, v: World) {
    && (forall key | key in w.objects :: key in v.objects && v.objects[key] == w.objects[key])
    && w.rows <= v.rows
  }

  lemma FindRowExtends(rows: seq<Row>, more: seq<Row>, sha256: string)
    requires rows <= more && FindRow(rows, sha256).Some?
    ensures FindRow(more, sha256).Some?
  {
    var row := FindRow(rows, sha256).value;
    var i :| 0 <= i < |rows| && rows[i] == row;
    assert more[i] == row;
  }

  /** What an uploader relies on stays true while others act. */
  lemma UploadStaysOk(hash: Hasher, w: World, v: World, u: Upload)
    requires WellFormed(hash) && Extends(w, v) && UploadOk(hash, w, u)
    ensures UploadOk(hash, v, u)
  {
    var sha256 := hash(u.bytes);
    assert forall row | row in w.rows :: row in v.rows;
    if u.phase.Refetching? && FindRow(w.rows, sha256).Some? {
      FindRowExtends(w.rows, v.rows, sha256);
    }
    if u.phase == Failed(Integrity) {
      var key :| key in w.objects && hash(w.objects[key]) == sha256 && |w.objects[key]| != |u.bytes|;
      assert key in v.objects;
    }
  }

  /** A step of uploader `i` that stores nothing. */
  lemma EnterKeepsInv(hash: Hasher, w: World, i: nat, phase: Phase)
    requires Inv(hash, w) && i < |w.uploads|
    requires UploadOk(hash, w, w.uploads[i].(phase := phase))
    requires PastCreation(w.uploads[i].phase) ==> PastCreation(phase)
    ensures Inv(hash, Enter(w, i, phase)) && Extends(w, Enter(w, i, phase))
  {
    var v := Enter(w, i, phase);
    forall j | 0 <= j < |v.uploads| ensures UploadOk(hash, v, v.uploads[j]) {
      UploadStaysOk(hash, w, v, if j == i then w.uploads[i].(phase := phase) else w.uploads[j]);
    }
    CreatorsStay(w, v);
  }

  /** Uploaders keep their identifiers and never come back before creation. */
  ghost predicate Continues(w: World, v: World) {
    |w.uploads| <= |v.uploads|
    && forall j | 0 <= j < |w.uploads| :: v.uploads[j].id == w.uploads[j].id
                                          && (PastCreation(w.uploads[j].phase) ==> PastCreation(v.uploads[j].phase))
  }

  lemma CreatorsStay(w: World, v: World)
    requires CreatorsOk(w) && Continues(w, v)
    ensures forall row | row in w.rows :: Created(v, row)
  {
    forall row | row in w.rows ensures Created(v, row) {
      assert Created(w, row);
      var j :| 0 <= j < |w.uploads| && w.uploads[j].id == row.id && PastCreation(w.uploads[j].phase);
      assert v.uploads[j].id == row.id;
    }
  }

  lemma PersistKeepsInv(hash: Hasher, w: World, key: string, bytes: Bytes)
    requires Inv(hash, w) && key == ObjectKey(hash(bytes)) && key !in w.objects
    ensures Inv(hash, w.(objects := w.objects[key := bytes])) && Extends(w, w.(objects := w.objects[key := bytes]))
  {
    var v := w.(objects := w.objects[key := bytes]);
    forall j | 0 <= j < |v.uploads| ensures UploadOk(hash, v, v.uploads[j]) {
      UploadStaysOk(hash, w, v, w.uploads[j]);
    }
    CreatorsStay(w, v);
  }

  lemma CreateKeepsInv(hash: Hasher, w: World, i: nat)
    requires Inv(hash, w) && i < |w.uploads| && w.uploads[i].phase.Creating?
    requires !Conflicts(w.rows, NewRow(hash, w.uploads[i]))
    ensures var row := NewRow(hash, w.uploads[i]);
            var v := Enter(w.(rows := w.rows + [row]), i, Verifying(row, true));
            Inv(hash, v) && Extends(w, v)
  {
    var u := w.uploads[i];
    var row := NewRow(hash, u);
    var v := Enter(w.(rows := w.rows + [row]), i, Verifying(row, true));
    assert RowOk(hash, v.objects, row) by { assert UploadOk(hash, w, u); }
    forall r | r in v.rows ensures Created(v, r) {
      CreatorsStay(w, v);
      if r == row {
        assert v.uploads[i].id == row.id;
      }
    }
    forall j | 0 <= j < |v.uploads| ensures UploadOk(hash, v, v.uploads[j]) {
      if j != i {
        UploadStaysOk(hash, w, v, w.uploads[j]);
      } else {
        assert v.rows[|w.rows|] == row;
      }
    }
    assert RowsUnique(v.rows);
  }

  lemma StepKeepsInv(hash: Hasher, w: World, i: nat)
    requires Inv(hash, w) && i < |w.uploads|
    ensures Inv(hash, Step(hash, w, i)) && Extends(w, Step(hash, w, i))
  {
    var u := w.uploads[i];
    var sha256 := hash(u.bytes);
    var key := ObjectKey(sha256);
    assert UploadOk(hash, w, u);
    match u.phase
    case Persisting =>
      if key in w.objects {
        EnterKeepsInv(hash, w, i, VerifyingPath);
      } else {
        PersistKeepsInv(hash, w, key, u.bytes);
        EnterKeepsInv(hash, w.(objects := w.objects[key := u.bytes]), i, Creating);
      }
    case VerifyingPath =>
      KeyHoldsDigest(hash, w, sha256);
      EnterKeepsInv(hash, w, i, Step(hash, w, i).uploads[i].phase);
    case Creating =>
      var row := NewRow(hash, u);
      if Conflicts(w.rows, row) {
        ConflictIsDigestOrId(hash, w, row);
        EnterKeepsInv(hash, w, i, Refetching);
      } else {
        CreateKeepsInv(hash, w, i);
      }
    case Verifying(row, created) =>
      assert RowOk(hash, w.objects, row);
      EnterKeepsInv(hash, w, i, Done(row, created));
    case Checking => EnterKeepsInv(hash, w, i, Step(hash, w, i).uploads[i].phase);
    case Refetching => EnterKeepsInv(hash, w, i, Step(hash, w, i).uploads[i].phase);
    case _ =>
  }

  lemma KeyHoldsDigest(hash: Hasher, w: World, sha256: string)
    requires WellFormed(hash) && ObjectsOk(hash, w.objects) && IsSha256(sha256) && ObjectKey(sha256) in w.objects
    ensures hash(w.objects[ObjectKey(sha256)]) == sha256
  {
    ObjectKeyInjective(hash(w.objects[ObjectKey(sha256)]), sha256);
  }

  lemma ConflictIsDigestOrId(hash: Hasher, w: World, row: Row)
    requires RowsOk(hash, w) && Conflicts(w.rows, row) && IsSha256(row.sha256) && row.objectKey == ObjectKey(row.sha256)
    ensures FindRow(w.rows, row.sha256).Some? || IdTaken(w.rows, row.id)
  {
    var r :| r in w.rows && (r.sha256 == row.sha256 || r.id == row.id || r.objectKey == row.objectKey);
    assert RowOk(hash, w.objects, r);
    if r.objectKey == row.objectKey {
      ObjectKeyInjective(r.sha256, row.sha256);
    }
  }

  lemma ActKeepsInv(hash: Hasher, w: World, a: Action)
    requires Inv(hash, w)
    ensures Inv(hash, Act(hash, w, a)) && Extends(w, Act(hash, w, a))
  {
    match a
    case Begin(id, request) =>
      var v := Act(hash, w, a);
      forall j | 0 <= j < |v.uploads| ensures UploadOk(hash, v, v.uploads[j]) {
        if j < |w.uploads| {
          UploadStaysOk(hash, w, v, w.uploads[j]);
        }
      }
      CreatorsStay(w, v);
    case Advance(i) =>
      if i < |w.uploads| {
        StepKeepsInv(hash, w, i);
      }
    case Abandon(i) =>
      if i < |w.uploads| && StepsLeft(w.uploads[i].phase) > 0 {
        EnterKeepsInv(hash, w, i, Abandoned);
      }
  }

  /** The invariant holds after every run. */
  lemma {:induction false} RunKeepsInv(hash: Hasher, actions: seq<Action>)
    requires WellFormed(hash)
    ensures Inv(hash, Run(hash, actions))
  {
    if actions != [] {
      RunKeepsInv(hash, actions[..|actions| - 1]);
      ActKeepsInv(hash, Run(hash, actions[..|actions| - 1]), actions[|actions| - 1]);
    }
  }

  // ---- what every run guarantees ----

  /** Over every interleaving: each object hashes to its key; each row's digest and size are
      those of its object; and no digest has two rows. */
  lemma StoreIsConsistent(hash: Hasher, actions: seq<Action>)
    requires WellFormed(hash)
    ensures var w := Run(hash, actions);
            && (forall key | key in w.objects ::
                  key == "artifacts/sha256/" + hash(w.objects[key])[..2] + "/" + hash(w.objects[key]))
            && (forall row | row in w.rows ::
                  IsSha256(row.sha256)
                  && ObjectMatches(hash, w.objects, ObjectKey(row.sha256), row.sha256, row.byteSize))
            && (forall i, j | 0 <= i < j < |w.rows| :: w.rows[i].sha256 != w.rows[j].sha256)
  {
    RunKeepsInv(hash, actions);
    var w := Run(hash, actions);
    forall row | row in w.rows
      ensures IsSha256(row.sha256)
              && ObjectMatches(hash, w.objects, ObjectKey(row.sha256), row.sha256, row.byteSize)
    {
      assert RowOk(hash, w.objects, row);
    }
  }

  /** An object or a row, once stored, is the same after any further actions. */
  lemma {:induction false} StoredNeverChanges(hash: Hasher, before: seq<Action>, after: seq<Action>)
    requires WellFormed(hash)
    ensures Extends(Run(hash, before), Run(hash, before + after))
  {
    if after == [] {
      assert before + after == before;
    } else {
      var init := after[..|after| - 1];
      StoredNeverChanges(hash, before, init);
      var actions := before + after;
      assert actions[..|actions| - 1] == before + init;
      RunKeepsInv(hash, before + init);
      ActKeepsInv(hash, Run(hash, before + init), actions[|actions| - 1]);
    }
  }

  /** Uploaders of contents with one digest, in particular of the same content, receive the
      same row. */
  lemma SameContentSameRow(hash: Hasher, actions: seq<Action>, i: nat, j: nat)
    requires WellFormed(hash)
    requires var w := Run(hash, actions);
             && i < |w.uploads| && j < |w.uploads| && w.uploads[i].phase.Done? && w.uploads[j].phase.Done?
             && hash(w.uploads[i].bytes) == hash(w.uploads[j].bytes)
    ensures var w := Run(hash, actions); w.uploads[i].phase.row == w.uploads[j].phase.row
  {
    RunKeepsInv(hash, actions);
    var w := Run(hash, actions);
    assert UploadOk(hash, w, w.uploads[i]) && UploadOk(hash, w, w.uploads[j]);
  }

  ghost predicate DistinctIds(w: World) {
    forall i, j | 0 <= i < j < |w.uploads| :: w.uploads[i].id != w.uploads[j].id
  }

  /** Of the uploaders of one digest at most one is told that it created the row. */
  lemma OneCreator(hash: Hasher, actions: seq<Action>, i: nat, j: nat)
    requires WellFormed(hash)
    requires var w := Run(hash, actions);
             && DistinctIds(w) && i < |w.uploads| && j < |w.uploads|
             && w.uploads[i].phase.Done? && w.uploads[j].phase.Done?
             && w.uploads[i].phase.created && w.uploads[j].phase.created
             && hash(w.uploads[i].bytes) == hash(w.uploads[j].bytes)
    ensures i == j
  {
    SameContentSameRow(hash, actions, i, j);
    RunKeepsInv(hash, actions);
    var w := Run(hash, actions);
    assert UploadOk(hash, w, w.uploads[i]) && UploadOk(hash, w, w.uploads[j]);
  }

  /** Every step of an uploader that is not finished brings it nearer to its end, whatever
      the others have done: six steps are enough. */
  lemma StepsAreFew(hash: Hasher, w: World, i: nat)
    requires WellFormed(hash) && i < |w.uploads|
    ensures StepsLeft(w.uploads[i].phase) > 0
            ==> StepsLeft(Step(hash, w, i).uploads[i].phase) < StepsLeft(w.uploads[i].phase)
    ensures forall j | 0 <= j < |w.uploads| && j != i :: Step(hash, w, i).uploads[j] == w.uploads[j]
  {
  }

  /** How often uploader `i` takes a step. */
  function StepsOf(actions: seq<Action>, i: nat): nat {
    if actions == [] then 0
    else StepsOf(actions[..|actions| - 1], i) + (if actions[|actions| - 1] == Advance(i) then 1 else 0)
  }

  lemma ActKeepsUpload(hash: Hasher, w: World, a: Action, i: nat)
    requires WellFormed(hash) && i < |w.uploads|
    ensures i < |Act(hash, w, a).uploads|
    ensures var before, after := StepsLeft(w.uploads[i].phase), StepsLeft(Act(hash, w, a).uploads[i].phase);
            after <= before && (a == Advance(i) && before > 0 ==> after < before)
    ensures Act(hash, w, a).uploads[i].phase.Abandoned? ==> w.uploads[i].phase.Abandoned? || a == Abandon(i)
  {
    if a.Advance? && a.index < |w.uploads| {
      StepsAreFew(hash, w, a.index);
    }
  }

  /** One more action of a run. */
  lemma Extend(hash: Hasher, actions: seq<Action>, a: Action, w: World) returns (r: seq<Action>)
    requires WellFormed(hash) && Act(hash, Run(hash, actions), a) == w
    ensures r == actions + [a] && Run(hash, r) == w
  {
    r := actions + [a];
    assert r[..|r| - 1] == actions;
  }

  /** Every step of an unfinished uploader counts, and nobody else's step sets it back. */
  lemma {:induction false} StepsAreTaken(hash: Hasher, before: seq<Action>, after: seq<Action>, i: nat)
    requires WellFormed(hash) && i < |Run(hash, before).uploads|
    ensures i < |Run(hash, before + after).uploads|
    ensures var left := StepsLeft(Run(hash, before + after).uploads[i].phase);
            left == 0 || left + StepsOf(after, i) <= StepsLeft(Run(hash, before).uploads[i].phase)
  {
    if after == [] {
      assert before + after == before;
    } else {
      var init := after[..|after| - 1];
      StepsAreTaken(hash, before, init, i);
      var a, w := after[|after| - 1], Run(hash, before + init);
      var actions := Extend(hash, before + init, a, Act(hash, w, a));
      ActKeepsUpload(hash, w, a, i);
      assert actions == before + after;
    }
  }

  /** An uploader disappears only by its own doing. */
  lemma {:induction false} StaysUnlessAbandoned(hash: Hasher, before: seq<Action>, after: seq<Action>, i: nat)
    requires WellFormed(hash) && i < |Run(hash, before).uploads|
    requires !Run(hash, before).uploads[i].phase.Abandoned? && Abandon(i) !in after
    ensures i < |Run(hash, before + after).uploads| && !Run(hash, before + after).uploads[i].phase.Abandoned?
  {
    if after == [] {
      assert before + after == before;
    } else {
      var init := after[..|after| - 1];
      StaysUnlessAbandoned(hash, before, init, i);
      var a, w := after[|after| - 1], Run(hash, before + init);
      var actions := Extend(hash, before + init, a, Act(hash, w, a));
      ActKeepsUpload(hash, w, a, i);
      assert actions == before + after;
    }
  }

  /** Whatever the others do in between, an uploader that takes six steps and does not
      disappear ends with a row or with an error. */
  lemma UploadsFinish(hash: Hasher, before: seq<Action>, after: seq<Action>, i: nat)
    requires WellFormed(hash) && i < |Run(hash, before).uploads|
    ensures i < |Run(hash, before + after).uploads|
    ensures StepsOf(after, i) >= 6 ==> StepsLeft(Run(hash, before + after).uploads[i].phase) == 0
    ensures StepsOf(after, i) >= 6 && !Run(hash, before).uploads[i].phase.Abandoned? && Abandon(i) !in after ==>
              var phase := Run(hash, before + after).uploads[i].phase; phase.Done? || phase.Failed?
  {
    StepsAreTaken(hash, before, after, i);
    if !Run(hash, before).uploads[i].phase.Abandoned? && Abandon(i) !in after {
      StaysUnlessAbandoned(hash, before, after, i);
    }
  }

  /** The uploader that finds this row when it begins, and what becomes of it. */
  predicate OnlyVerifies(u: Upload, row: Row) {
    u.phase in {Checking, Verifying(row, false), Done(row, false)}
  }

  ghost predicate Settled(hash: Hasher, w: World, i: nat, row: Row) {
    && i < |w.uploads| && FindRow(w.rows, hash(w.uploads[i].bytes)) == Some(row) && OnlyVerifies(w.uploads[i], row)
  }

  lemma StepOnlyVerifies(hash: Hasher, w: World, i: nat, row: Row)
    requires Inv(hash, w) && Settled(hash, w, i, row)
    ensures OnlyVerifies(Step(hash, w, i).uploads[i], row)
  {
    assert RowOk(hash, w.objects, row);
  }

  lemma OthersLeaveAlone(hash: Hasher, w: World, a: Action, i: nat)
    requires WellFormed(hash) && i < |w.uploads| && a != Advance(i) && a != Abandon(i)
    ensures i < |Act(hash, w, a).uploads| && Act(hash, w, a).uploads[i] == w.uploads[i]
  {
    if a.Advance? && a.index < |w.uploads| {
      StepsAreFew(hash, w, a.index);
    }
  }

  lemma ActKeepsSettled(hash: Hasher, w: World, a: Action, i: nat, row: Row)
    requires Inv(hash, w) && Settled(hash, w, i, row) && a != Abandon(i)
    ensures Settled(hash, Act(hash, w, a), i, row)
  {
    ActKeepsInv(hash, w, a);
    SameContents(hash, w, a);
    SameFirstRow(w.rows, Act(hash, w, a).rows, hash(w.uploads[i].bytes));
    if a == Advance(i) {
      StepOnlyVerifies(hash, w, i, row);
    } else {
      OthersLeaveAlone(hash, w, a, i);
    }
  }

  lemma {:induction false} SameFirstRow(rows: seq<Row>, more: seq<Row>, sha256: string)
    requires rows <= more && FindRow(rows, sha256).Some?
    ensures FindRow(more, sha256) == FindRow(rows, sha256)
  {
    if rows[0].sha256 != sha256 {
      SameFirstRow(rows[1..], more[1..], sha256);
    }
  }

  lemma {:induction false} StaysSettled(hash: Hasher, before: seq<Action>, after: seq<Action>, i: nat, row: Row)
    requires WellFormed(hash) && Settled(hash, Run(hash, before), i, row) && Abandon(i) !in after
    ensures Settled(hash, Run(hash, before + after), i, row)
  {
    if after == [] {
      assert before + after == before;
    } else {
      var init := after[..|after| - 1];
      StaysSettled(hash, before, init, i, row);
      var a, w := after[|after| - 1], Run(hash, before + init);
      RunKeepsInv(hash, before + init);
      var actions := Extend(hash, before + init, a, Act(hash, w, a));
      ActKeepsSettled(hash, w, a, i, row);
      assert actions == before + after;
    }
  }

  /** An upload of a digest that has a row before the upload begins its check ends with that
      row and as not its creator, whatever the sizes. */
  lemma ExistingRowIsReturned(hash: Hasher, before: seq<Action>, after: seq<Action>, i: nat, row: Row)
    requires WellFormed(hash) && i < |Run(hash, before).uploads| && Abandon(i) !in after && StepsOf(after, i) >= 6
    requires var w := Run(hash, before);
             && w.uploads[i].phase.Checking?
             && row in w.rows && row.sha256 == hash(w.uploads[i].bytes)
    ensures i < |Run(hash, before + after).uploads|
    ensures Run(hash, before + after).uploads[i].phase == Done(row, false)
  {
    var w := Run(hash, before);
    RunKeepsInv(hash, before);
    var found := FindRow(w.rows, row.sha256).value;
    assert found == row;
    StaysSettled(hash, before, after, i, row);
    UploadsFinish(hash, before, after, i);
  }

  // ---- when an upload fails ----

  /** Two of the contents share a digest but not their size. */
  ghost predicate Clash(hash: Hasher, contents: set<Bytes>) {
    exists a, b :: a in contents && b in contents && hash(a) == hash(b) && |a| != |b|
  }

  /** The contents that were received in the run. */
  ghost function ReceivedContents(w: World): set<Bytes> {
    set i | 0 <= i < |w.uploads| :: w.uploads[i].bytes
  }

  ghost predicate SomeFailed(w: World) {
    exists i | 0 <= i < |w.uploads| :: w.uploads[i].phase.Failed?
  }

  /** A run of uploads of some of these contents, under distinct identifiers, in which a
      verification raises or a row is missing. */
  ghost predicate CanFail(hash: Hasher, contents: set<Bytes>, actions: seq<Action>)
    requires WellFormed(hash)
  {
    var w := Run(hash, actions);
    DistinctIds(w) && ReceivedContents(w) <= contents && SomeFailed(w)
  }

  /** Uploads of given contents can fail exactly when two of those contents share a digest
      but not their size. */
  lemma FailureCondition(hash: Hasher, contents: set<Bytes>)
    requires WellFormed(hash)
    ensures (exists actions :: CanFail(hash, contents, actions)) <==> Clash(hash, contents)
  {
    forall actions | CanFail(hash, contents, actions) ensures Clash(hash, contents) {
      var w := Run(hash, actions);
      var i :| 0 <= i < |w.uploads| && w.uploads[i].phase.Failed?;
      var j := FailureNeedsClash(hash, actions, i);
      assert w.uploads[i].bytes in ReceivedContents(w) && w.uploads[j].bytes in ReceivedContents(w);
    }
    if Clash(hash, contents) {
      var a, b :| a in contents && b in contents && hash(a) == hash(b) && |a| != |b|;
      RaceFails(hash, contents, a, b);
    }
  }

  /** An upload fails only if another upload of the same run has its digest but not its
      size. */
  lemma FailureNeedsClash(hash: Hasher, actions: seq<Action>, i: nat) returns (j: nat)
    requires WellFormed(hash) && DistinctIds(Run(hash, actions)) && i < |Run(hash, actions).uploads|
    requires Run(hash, actions).uploads[i].phase.Failed?
    ensures var w := Run(hash, actions);
            && j < |w.uploads| && hash(w.uploads[j].bytes) == hash(w.uploads[i].bytes)
            && |w.uploads[j].bytes| != |w.uploads[i].bytes|
  {
    RunKeepsInv(hash, actions);
    var w := Run(hash, actions);
    assert UploadOk(hash, w, w.uploads[i]);
    NothingMissing(hash, actions, i);
    var key :| key in w.objects && hash(w.objects[key]) == hash(w.uploads[i].bytes)
               && |w.objects[key]| != |w.uploads[i].bytes|;
    ObjectsWereUploaded(hash, actions);
    assert Uploaded(w, w.objects[key]);
    j :| 0 <= j < |w.uploads| && w.uploads[j].bytes == w.objects[key];
  }

  ghost predicate Uploaded(w: World, bytes: Bytes) {
    exists i | 0 <= i < |w.uploads| :: w.uploads[i].bytes == bytes
  }

  ghost predicate AllUploaded(w: World) {
    forall key | key in w.objects :: Uploaded(w, w.objects[key])
  }

  /** Every object holds the content of some upload of the run. */
  lemma {:induction false} ObjectsWereUploaded(hash: Hasher, actions: seq<Action>)
    requires WellFormed(hash)
    ensures AllUploaded(Run(hash, actions))
  {
    if actions != [] {
      var before, a := actions[..|actions| - 1], actions[|actions| - 1];
      ObjectsWereUploaded(hash, before);
      ActKeepsUploaded(hash, Run(hash, before), a);
    }
  }

  lemma ActKeepsUploaded(hash: Hasher, w: World, a: Action)
    requires WellFormed(hash) && AllUploaded(w)
    ensures AllUploaded(Act(hash, w, a))
  {
    var v := Act(hash, w, a);
    SameContents(hash, w, a);
    forall key | key in v.objects ensures Uploaded(v, v.objects[key]) {
      if key in w.objects && v.objects[key] == w.objects[key] {
        assert Uploaded(w, w.objects[key]);
        var i :| 0 <= i < |w.uploads| && w.uploads[i].bytes == w.objects[key];
        assert v.uploads[i].bytes == v.objects[key];
      } else {
        assert v.uploads[a.index].bytes == v.objects[key];
      }
    }
  }

  lemma SameContents(hash: Hasher, w: World, a: Action)
    requires WellFormed(hash)
    ensures |w.uploads| <= |Act(hash, w, a).uploads|
    ensures forall j | 0 <= j < |w.uploads| :: Act(hash, w, a).uploads[j].bytes == w.uploads[j].bytes
  {
  }

  /** With distinct identifiers no uploader finds its identifier taken. */
  lemma {:induction false} NothingMissing(hash: Hasher, actions: seq<Action>, i: nat)
    requires WellFormed(hash) && DistinctIds(Run(hash, actions)) && i < |Run(hash, actions).uploads|
    ensures Run(hash, actions).uploads[i].phase != Failed(Missing)
  {
    if actions != [] {
      var before, a := actions[..|actions| - 1], actions[|actions| - 1];
      var w := Run(hash, before);
      RunKeepsInv(hash, before);
      SameIds(hash, w, a);
      if i < |w.uploads| {
        NothingMissing(hash, before, i);
      }
      ActNotMissing(hash, w, a, i);
    }
  }

  lemma ActNotMissing(hash: Hasher, w: World, a: Action, i: nat)
    requires Inv(hash, w) && DistinctIds(w) && i < |Act(hash, w, a).uploads|
    requires i < |w.uploads| ==> w.uploads[i].phase != Failed(Missing)
    ensures Act(hash, w, a).uploads[i].phase != Failed(Missing)
  {
    if a == Advance(i) && i < |w.uploads| && w.uploads[i].phase.Refetching? {
      assert UploadOk(hash, w, w.uploads[i]);
      OwnIdIsFree(hash, w, i);
    }
  }

  lemma SameIds(hash: Hasher, w: World, a: Action)
    requires WellFormed(hash)
    ensures |w.uploads| <= |Act(hash, w, a).uploads|
    ensures forall j | 0 <= j < |w.uploads| :: Act(hash, w, a).uploads[j].id == w.uploads[j].id
    ensures DistinctIds(Act(hash, w, a)) ==> DistinctIds(w)
  {
  }

  lemma OwnIdIsFree(hash: Hasher, w: World, i: nat)
    requires Inv(hash, w) && DistinctIds(w) && i < |w.uploads| && !PastCreation(w.uploads[i].phase)
    ensures !IdTaken(w.rows, w.uploads[i].id)
  {
    forall row | row in w.rows ensures row.id != w.uploads[i].id {
      assert Created(w, row);
    }
  }

  // ---- when an upload succeeds ----

  /** A row that the uploader did not create does not carry its identifier. */
  predicate OtherRow(u: Upload) {
    (u.phase.Verifying? || u.phase.Done?) && !u.phase.created ==> u.phase.row.id != u.id
  }

  lemma ActKeepsOtherRow(hash: Hasher, w: World, a: Action, i: nat)
    requires Inv(hash, w) && DistinctIds(w) && i < |Act(hash, w, a).uploads|
    requires i < |w.uploads| ==> OtherRow(w.uploads[i])
    ensures OtherRow(Act(hash, w, a).uploads[i])
  {
    if a == Advance(i) && i < |w.uploads| && !PastCreation(w.uploads[i].phase) {
      OwnIdIsFree(hash, w, i);
    }
  }

  lemma {:induction false} FoundIsOtherRow(hash: Hasher, actions: seq<Action>, i: nat)
    requires WellFormed(hash) && DistinctIds(Run(hash, actions)) && i < |Run(hash, actions).uploads|
    ensures OtherRow(Run(hash, actions).uploads[i])
  {
    if actions != [] {
      var before, a := actions[..|actions| - 1], actions[|actions| - 1];
      var w := Run(hash, before);
      RunKeepsInv(hash, before);
      SameIds(hash, w, a);
      if i < |w.uploads| {
        FoundIsOtherRow(hash, before, i);
      }
      ActKeepsOtherRow(hash, w, a, i);
    }
  }

  /** What a finished upload reports: a stored row with the digest of its content, which it
      has created exactly when the row carries its own identifier. */
  lemma DoneReportsRow(hash: Hasher, actions: seq<Action>, i: nat)
    requires WellFormed(hash) && DistinctIds(Run(hash, actions)) && i < |Run(hash, actions).uploads|
    requires Run(hash, actions).uploads[i].phase.Done?
    ensures var w := Run(hash, actions);
            var u := w.uploads[i];
            var row := u.phase.row;
            && row in w.rows && row.sha256 == hash(u.bytes) && row.objectKey == ObjectKey(hash(u.bytes))
            && ObjectMatches(hash, w.objects, row.objectKey, row.sha256, row.byteSize)
            && (u.phase.created <==> row.id == u.id)
  {
    var w := Run(hash, actions);
    RunKeepsInv(hash, actions);
    assert UploadOk(hash, w, w.uploads[i]);
    assert RowOk(hash, w.objects, w.uploads[i].phase.row);
    FoundIsOtherRow(hash, actions, i);
  }

  /** Unless another upload of the run has its digest but not its size, an upload that takes
      six steps and does not disappear ends with a row of the digest and the size of its
      content, and is told that it created the row exactly when the row is its own. */
  lemma UploadSucceeds(hash: Hasher, before: seq<Action>, after: seq<Action>, i: nat)
    requires WellFormed(hash) && i < |Run(hash, before).uploads|
    requires !Run(hash, before).uploads[i].phase.Abandoned? && Abandon(i) !in after && StepsOf(after, i) >= 6
    requires i < |Run(hash, before + after).uploads| && DistinctIds(Run(hash, before + after))
    requires var w := Run(hash, before + after);
             forall j | 0 <= j < |w.uploads| && hash(w.uploads[j].bytes) == hash(w.uploads[i].bytes) ::
               |w.uploads[j].bytes| == |w.uploads[i].bytes|
    ensures var w := Run(hash, before + after);
            var u := w.uploads[i];
            && u.phase.Done? && u.phase.row in w.rows
            && u.phase.row.sha256 == hash(u.bytes) && u.phase.row.byteSize == |u.bytes|
            && (u.phase.created <==> u.phase.row.id == u.id)
  {
    var actions := before + after;
    var w := Run(hash, actions);
    UploadsFinish(hash, before, after, i);
    if w.uploads[i].phase.Failed? {
      var j := FailureNeedsClash(hash, actions, i);
      assert false;
    }
    DoneReportsRow(hash, actions, i);
    ObjectsWereUploaded(hash, actions);
    assert Uploaded(w, w.objects[w.uploads[i].phase.row.objectKey]);
  }

  function Whole(id: nat, bytes: Bytes): Action {
    Begin(id, Request([bytes], None, None, |bytes|))
  }

  /** Two uploaders check for a row, then the first stores its object: the second finds an
      object with its digest but another size. */
  lemma RaceFails(hash: Hasher, contents: set<Bytes>, a: Bytes, b: Bytes)
    requires WellFormed(hash) && a in contents && b in contents && hash(a) == hash(b) && |a| != |b|
    ensures exists actions :: CanFail(hash, contents, actions)
  {
    var sha256 := hash(a);
    var u, v := Upload(0, a, Checking), Upload(1, b, Checking);
    var objects := map[ObjectKey(sha256) := a];
    WholeReceived(hash, a);
    WholeReceived(hash, b);
    var r := Extend(hash, [], Whole(0, a), World(map[], [], [u]));
    r := Extend(hash, r, Whole(1, b), World(map[], [], [u, v]));
    r := Extend(hash, r, Advance(0), World(map[], [], [u.(phase := Persisting), v]));
    r := Extend(hash, r, Advance(1), World(map[], [], [u.(phase := Persisting), v.(phase := Persisting)]));
    r := Extend(hash, r, Advance(0), World(objects, [], [u.(phase := Creating), v.(phase := Persisting)]));
    r := Extend(hash, r, Advance(1), World(objects, [], [u.(phase := Creating), v.(phase := VerifyingPath)]));
    r := Extend(hash, r, Advance(1), World(objects, [], [u.(phase := Creating), v.(phase := Failed(Integrity))]));
    assert Run(hash, r).uploads[1].phase.Failed?;
    assert CanFail(hash, contents, r);
  }

  lemma WholeReceived(hash: Hasher, bytes: Bytes)
    ensures Reception(hash, Request([bytes], None, None, |bytes|)) == Received(bytes)
  {
    assert [bytes][..0] == [];
    assert Concat([bytes]) == bytes;
  }

  // ---- the shared store ----

  /** The object directory, the table and the uploaders in flight, updated in place; each
      method is one action of a run, so the theorems about runs hold of this class. */
  class ArtifactStore {
    const hash: Hasher
    var objects: map<string, Bytes>
    var rows: seq<Row>
    var uploads: seq<Upload>

    constructor (hash: Hasher)
      ensures this.hash == hash && Contents() == EMPTY
    {
      this.hash := hash;
      objects, rows, uploads := map[], [], [];
    }

    function Contents(): World
      reads this
    {
      World(objects, rows, uploads)
    }

    /** `Artifact.objects.filter(sha256=sha256).first()`. */
    method FirstRow(sha256: string) returns (r: Option<Row>)
      ensures r == FindRow(rows, sha256)
    {
      var i := |rows|;
      r := None;
      while i > 0
        invariant 0 <= i <= |rows| && r == FindRow(rows[i..], sha256)
      {
        i := i - 1;
        assert rows[i..][1..] == rows[i + 1..];
        if rows[i].sha256 == sha256 {
          r := Some(rows[i]);
        }
      }
      assert rows[0..] == rows;
    }

    /** `os.link` of the temporary file: it creates the object unless there is one. */
    method CreateObject(key: string, bytes: Bytes) returns (created: bool)
      modifies this`objects
      ensures created == (key !in old(objects))
      ensures objects == if created then old(objects)[key := bytes] else old(objects)
    {
      created := key !in objects;
      if created {
        objects := objects[key := bytes];
      }
    }

    /** `Artifact.objects.create` under the table's constraints. */
    method CreateRow(row: Row) returns (created: bool)
      modifies this`rows
      ensures created == !Conflicts(old(rows), row)
      ensures rows == if created then old(rows) + [row] else old(rows)
    {
      for i := 0 to |rows|
        invariant rows == old(rows)
        invariant !Conflicts(rows[..i], row)
      {
        if rows[i].sha256 == row.sha256 || rows[i].id == row.id || rows[i].objectKey == row.objectKey {
          return false;
        }
        TakeNext(rows, i);
      }
      assert rows[..|rows|] == rows;
      rows := rows + [row];
      return true;
    }

    method Enter(i: nat, phase: Phase)
      requires i < |uploads|
      modifies this`uploads
      ensures uploads == old(uploads)[i := old(uploads)[i].(phase := phase)]
    {
      uploads := uploads[i := uploads[i].(phase := phase)];
    }

    method Begin(id: nat, request: Request)
      modifies this`uploads
      ensures Contents() == Act(hash, old(Contents()), Action.Begin(id, request))
    {
      var received := Receive(hash, request);
      if received.Received? {
        uploads := uploads + [Upload(id, received.bytes, Checking)];
      }
    }

    method Abandon(i: nat)
      modifies this`uploads
      ensures Contents() == Act(hash, old(Contents()), Action.Abandon(i))
    {
      if i < |uploads| && StepsLeft(uploads[i].phase) > 0 {
        Enter(i, Abandoned);
      }
    }

    /** One step of `store_artifact_chunks` after the content was received. */
    method Advance(i: nat)
      requires WellFormed(hash)
      modifies this
      ensures Contents() == Act(hash, old(Contents()), Action.Advance(i))
    {
      if i >= |uploads| {
        return;
      }
      var u := uploads[i];
      var sha256 := hash(u.bytes);
      var key := ObjectKey(sha256);
      match u.phase
      case Checking =>
        var existing := FirstRow(sha256);
        if existing.Some? {
          Enter(i, Verifying(existing.value, false));
        } else {
          Enter(i, Persisting);
        }
      case Persisting =>
        var created := CreateObject(key, u.bytes);
        Enter(i, if created then Creating else VerifyingPath);
      case VerifyingPath =>
        var matches := ObjectMatches(hash, objects, key, sha256, |u.bytes|);
        Enter(i, if matches then Creating else Failed(Integrity));
      case Creating =>
        var row := NewRow(hash, u);
        var created := CreateRow(row);
        if created {
          Enter(i, Verifying(row, true));
        } else {
          Enter(i, Refetching);
        }
      case Refetching =>
        var existing := FirstRow(sha256);
        if existing.Some? {
          Enter(i, Verifying(existing.value, false));
        } else {
          Enter(i, Failed(Missing));
        }
      case Verifying(row, created) =>
        var verified := RowVerifies(hash, objects, row);
        Enter(i, if verified then Done(row, created) else Failed(Integrity));
      case _ =>
    }
  }
}
