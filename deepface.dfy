/** The DeepFace embedding store and nearest-match recognition. The store
    maps an employee to the embeddings registered per capture angle, in
    insertion order (a Python dict of dicts); decoding an image and computing
    an embedding are one opaque step, and the distance between two
    embeddings is a function supplied by the caller. */
module DeepFace {
  import opened Common

  type Embedding = seq<real>

  /** The outcome of decoding an image and asking the model for an embedding. */
  datatype Extraction = BadImage | NoEmbedding | Embedded(embedding: Embedding)

  datatype AngleEmbedding = AngleEmbedding(angle: string, embedding: Embedding)

  datatype EmployeeEmbeddings = EmployeeEmbeddings(employeeId: string, angles: seq<AngleEmbedding>)

  /** Dict semantics: employee keys are distinct, and so are the angle keys
      of each employee. */
  predicate AnglesDistinct(angles: seq<AngleEmbedding>)
  {
    forall i, j :: 0 <= i < j < |angles| ==> angles[i].angle != angles[j].angle
  }

  predicate StoreValid(store: seq<EmployeeEmbeddings>)
  {
    (forall i, j :: 0 <= i < j < |store| ==> store[i].employeeId != store[j].employeeId) &&
    (forall i :: 0 <= i < |store| ==> AnglesDistinct(store[i].angles))
  }

  function EmployeeIndex(store: seq<EmployeeEmbeddings>, id: string): (k: Option<nat>)
    ensures k.Some? ==> k.value < |store| && store[k.value].employeeId == id
    ensures k.Some? ==> forall i :: 0 <= i < k.value ==> store[i].employeeId != id
    ensures k.None? ==> forall i :: 0 <= i < |store| ==> store[i].employeeId != id
  {
    if |store| == 0 then None
    else if store[0].employeeId == id then Some(0)
    else
      match EmployeeIndex(store[1..], id)
      case None => None
      case Some(k) => Some(k + 1)
  }

  function AngleIndex(angles: seq<AngleEmbedding>, angle: string): (k: Option<nat>)
    ensures k.Some? ==> k.value < |angles| && angles[k.value].angle == angle
    ensures k.Some? ==> forall i :: 0 <= i < k.value ==> angles[i].angle != angle
    ensures k.None? ==> forall i :: 0 <= i < |angles| ==> angles[i].angle != angle
  {
    if |angles| == 0 then None
    else if angles[0].angle == angle then Some(0)
    else
      match AngleIndex(angles[1..], angle)
      case None => None
      case Some(k) => Some(k + 1)
  }

  /** `face_embeddings[id][angle]`, if present. */
  function Lookup(store: seq<EmployeeEmbeddings>, id: string, angle: string): Option<Embedding>
  {
    match EmployeeIndex(store, id)
    case None => None
    case Some(k) =>
      match AngleIndex(store[k].angles, angle)
      case None => None
      case Some(a) => Some(store[k].angles[a].embedding)
  }

  /** The employee keys, in insertion order (`list(face_embeddings.keys())`). */
  function Keys(store: seq<EmployeeEmbeddings>): (ks: seq<string>)
    ensures |ks| == |store|
    ensures forall i :: 0 <= i < |store| ==> ks[i] == store[i].employeeId
  {
    if |store| == 0 then [] else [store[0].employeeId] + Keys(store[1..])
  }

  function PutAngle(angles: seq<AngleEmbedding>, angle: string, e: Embedding): seq<AngleEmbedding>
  {
    match AngleIndex(angles, angle)
    case Some(a) => angles[a := AngleEmbedding(angle, e)]
    case None => angles + [AngleEmbedding(angle, e)]
  }

  /** `face_embeddings.setdefault(id, {})[angle] = e`. */
  function Put(store: seq<EmployeeEmbeddings>, id: string, angle: string, e: Embedding): seq<EmployeeEmbeddings>
  {
    match EmployeeIndex(store, id)
    case Some(k) => store[k := store[k].(angles := PutAngle(store[k].angles, angle, e))]
    case None => store + [EmployeeEmbeddings(id, [AngleEmbedding(angle, e)])]
  }

  lemma PutAngleProperties(angles: seq<AngleEmbedding>, angle: string, e: Embedding)
    requires AnglesDistinct(angles)
    ensures var angles' := PutAngle(angles, angle, e);
      && AnglesDistinct(angles')
      && AngleIndex(angles', angle).Some?
      && angles'[AngleIndex(angles', angle).value].embedding == e
      && (forall other :: other != angle ==> AngleIndex(angles', other) == AngleIndex(angles, other))
  {
    var angles' := PutAngle(angles, angle, e);
    match AngleIndex(angles, angle) {
      case Some(a) => AngleIndexFound(angles', a, angle);
      case None => AngleIndexFound(angles', |angles|, angle);
    }
    forall other | other != angle
      ensures AngleIndex(angles', other) == AngleIndex(angles, other)
    {
      AngleIndexSameKeys(angles, angles', other);
    }
  }

  lemma {:induction false} AngleIndexFound(angles: seq<AngleEmbedding>, k: nat, angle: string)
    requires k < |angles| && angles[k].angle == angle
    requires forall i :: 0 <= i < k ==> angles[i].angle != angle
    ensures AngleIndex(angles, angle) == Some(k)
  {
    if k > 0 {
      AngleIndexFound(angles[1..], k - 1, angle);
    }
  }

  lemma {:induction false} EmployeeIndexFound(store: seq<EmployeeEmbeddings>, k: nat, id: string)
    requires k < |store| && store[k].employeeId == id
    requires forall i :: 0 <= i < k ==> store[i].employeeId != id
    ensures EmployeeIndex(store, id) == Some(k)
  {
    if k > 0 {
      EmployeeIndexFound(store[1..], k - 1, id);
    }
  }

  /** The first index of a key only depends on the keys up to it. */
  lemma {:induction false} AngleIndexSameKeys(angles: seq<AngleEmbedding>, angles': seq<AngleEmbedding>, other: string)
    requires |angles| <= |angles'|
    requires forall i :: 0 <= i < |angles| ==> (angles[i].angle == other <==> angles'[i].angle == other)
    requires forall i :: |angles| <= i < |angles'| ==> angles'[i].angle != other
    ensures AngleIndex(angles', other) == AngleIndex(angles, other)
  {
    if |angles'| > 0 {
      if |angles| == 0 {
        AngleIndexSameKeys(angles, angles'[1..], other);
      } else {
        AngleIndexSameKeys(angles[1..], angles'[1..], other);
      }
    }
  }

  lemma {:induction false} EmployeeIndexSameKeys(store: seq<EmployeeEmbeddings>, store': seq<EmployeeEmbeddings>, other: string)
    requires |store| <= |store'|
    requires forall i :: 0 <= i < |store| ==> (store[i].employeeId == other <==> store'[i].employeeId == other)
    requires forall i :: |store| <= i < |store'| ==> store'[i].employeeId != other
    ensures EmployeeIndex(store', other) == EmployeeIndex(store, other)
  {
    if |store'| > 0 {
      if |store| == 0 {
        EmployeeIndexSameKeys(store, store'[1..], other);
      } else {
        EmployeeIndexSameKeys(store[1..], store'[1..], other);
      }
    }
  }

  lemma PutExisting(store: seq<EmployeeEmbeddings>, id: string, angle: string, e: Embedding, k: nat)
    requires StoreValid(store) && EmployeeIndex(store, id) == Some(k)
    ensures var store' := Put(store, id, angle, e);
      && StoreValid(store')
      && Lookup(store', id, angle) == Some(e)
      && (forall id', angle' :: (id', angle') != (id, angle) ==> Lookup(store', id', angle') == Lookup(store, id', angle'))
      && Keys(store') == Keys(store)
  {
    var store' := Put(store, id, angle, e);
    var angles' := PutAngle(store[k].angles, angle, e);
    assert store' == store[k := store[k].(angles := angles')];
    PutAngleProperties(store[k].angles, angle, e);
    ReplacedEntryKeys(store, k, store[k].(angles := angles'));
    assert StoreValid(store') by {
      forall i | 0 <= i < |store'| ensures AnglesDistinct(store'[i].angles) {
        if i != k {
          assert store'[i] == store[i];
        }
      }
    }
    forall id', angle' | (id', angle') != (id, angle)
      ensures Lookup(store', id', angle') == Lookup(store, id', angle')
    {
      if id' != id {
        LookupReplaced(store, k, store[k].(angles := angles'), id', angle');
      }
    }
  }

  /** Replacing one employee's entry leaves the lookups of every other
      employee as they were. */
  lemma LookupReplaced(store: seq<EmployeeEmbeddings>, k: nat, entry: EmployeeEmbeddings, id: string, angle: string)
    requires k < |store| && entry.employeeId == store[k].employeeId && store[k].employeeId != id
    ensures Lookup(store[k := entry], id, angle) == Lookup(store, id, angle)
  {
    ReplacedEntryKeys(store, k, entry);
    match EmployeeIndex(store, id) {
      case None =>
      case Some(k') => assert store[k := entry][k'] == store[k'];
    }
  }

  /** Replacing an employee's entry by one with the same id keeps every
      index and the key order. */
  lemma ReplacedEntryKeys(store: seq<EmployeeEmbeddings>, k: nat, entry: EmployeeEmbeddings)
    requires k < |store| && entry.employeeId == store[k].employeeId
    ensures forall other :: EmployeeIndex(store[k := entry], other) == EmployeeIndex(store, other)
    ensures Keys(store[k := entry]) == Keys(store)
  {
    var store' := store[k := entry];
    forall other ensures EmployeeIndex(store', other) == EmployeeIndex(store, other) {
      EmployeeIndexSameKeys(store, store', other);
    }
    assert Keys(store') == Keys(store);
  }

  lemma PutNew(store: seq<EmployeeEmbeddings>, id: string, angle: string, e: Embedding)
    requires StoreValid(store) && EmployeeIndex(store, id).None?
    ensures var store' := Put(store, id, angle, e);
      && StoreValid(store')
      && Lookup(store', id, angle) == Some(e)
      && (forall id', angle' :: (id', angle') != (id, angle) ==> Lookup(store', id', angle') == Lookup(store, id', angle'))
      && Keys(store') == Keys(store) + [id]
  {
    var entry := EmployeeEmbeddings(id, [AngleEmbedding(angle, e)]);
    var store' := Put(store, id, angle, e);
    assert store' == store + [entry];
    EmployeeIndexFound(store', |store|, id);
    assert AngleIndex(entry.angles, angle) == Some(0);
    forall id', angle' | (id', angle') != (id, angle)
      ensures Lookup(store', id', angle') == Lookup(store, id', angle')
    {
      if id' != id {
        LookupAppended(store, entry, id', angle');
      } else {
        assert AngleIndex(entry.angles, angle') == None;
      }
    }
    assert Keys(store') == Keys(store) + [id];
  }

  /** Appending another employee's entry leaves every lookup of `id` as it
      was. */
  lemma LookupAppended(store: seq<EmployeeEmbeddings>, entry: EmployeeEmbeddings, id: string, angle: string)
    requires entry.employeeId != id
    ensures Lookup(store + [entry], id, angle) == Lookup(store, id, angle)
  {
    EmployeeIndexSameKeys(store, store + [entry], id);
    match EmployeeIndex(store, id) {
      case None =>
      case Some(k) => assert (store + [entry])[k] == store[k];
    }
  }

  /** Registering keeps the store a dict, makes the new embedding the one
      stored under (id, angle), leaves every other (employee, angle) pair as
      it was, and appends `id` to the keys only when it is new. */
  lemma PutProperties(store: seq<EmployeeEmbeddings>, id: string, angle: string, e: Embedding)
    requires StoreValid(store)
    ensures var store' := Put(store, id, angle, e);
      && StoreValid(store')
      && Lookup(store', id, angle) == Some(e)
      && (forall id', angle' :: (id', angle') != (id, angle) ==> Lookup(store', id', angle') == Lookup(store, id', angle'))
      && Keys(store') == (if EmployeeIndex(store, id).Some? then Keys(store) else Keys(store) + [id])
  {
    match EmployeeIndex(store, id)
    case Some(k) => PutExisting(store, id, angle, e, k);
    case None => PutNew(store, id, angle, e);
  }

  // ---------------------------------------------------------------------
  // Nearest match
  // ---------------------------------------------------------------------

  /** One stored (employee, angle, embedding) triple. */
  datatype Candidate = Candidate(employeeId: string, angle: string, embedding: Embedding)

  function AngleCandidates(id: string, angles: seq<AngleEmbedding>): (cs: seq<Candidate>)
    ensures |cs| == |angles|
    ensures forall j :: 0 <= j < |angles| ==> cs[j] == Candidate(id, angles[j].angle, angles[j].embedding)
  {
    if |angles| == 0 then []
    else AngleCandidates(id, angles[..|angles| - 1]) +
         [Candidate(id, angles[|angles| - 1].angle, angles[|angles| - 1].embedding)]
  }

  /** All stored triples in the order the nested loop visits them. */
  function Candidates(store: seq<EmployeeEmbeddings>): seq<Candidate>
  {
    if |store| == 0 then []
    else Candidates(store[..|store| - 1]) +
         AngleCandidates(store[|store| - 1].employeeId, store[|store| - 1].angles)
  }

  /** The index of the first candidate with the strictly smallest distance
      (a later candidate replaces the best only when strictly closer). */
  function BestIndex(cs: seq<Candidate>, input: Embedding, dist: (Embedding, Embedding) -> real): (b: Option<nat>)
    ensures b.Some? <==> |cs| > 0
    ensures b.Some? ==> b.value < |cs|
    ensures b.Some? ==> forall j :: 0 <= j < |cs| ==> dist(input, cs[b.value].embedding) <= dist(input, cs[j].embedding)
    ensures b.Some? ==> forall j :: 0 <= j < b.value ==> dist(input, cs[j].embedding) > dist(input, cs[b.value].embedding)
  {
    if |cs| == 0 then None
    else
      var b := BestIndex(cs[..|cs| - 1], input, dist);
      if b.None? || dist(input, cs[|cs| - 1].embedding) < dist(input, cs[b.value].embedding) then Some(|cs| - 1)
      else b
  }

  lemma BestIndexSnoc(cs: seq<Candidate>, c: Candidate, input: Embedding, dist: (Embedding, Embedding) -> real)
    ensures (cs + [c])[..|cs|] == cs
    ensures forall k :: 0 <= k < |cs| ==> (cs + [c])[k] == cs[k]
    ensures var b := BestIndex(cs, input, dist);
      BestIndex(cs + [c], input, dist) ==
        if b.None? || dist(input, c.embedding) < dist(input, cs[b.value].embedding) then Some(|cs|) else b
  {
    assert (cs + [c])[..|cs|] == cs;
  }

  /** `best` and `bestDistance` are the loop's view of `BestIndex(visited)`. */
  predicate Tracks(visited: seq<Candidate>, input: Embedding, dist: (Embedding, Embedding) -> real,
                   best: Option<Candidate>, bestDistance: real)
  {
    var b := BestIndex(visited, input, dist);
    && (b.None? <==> best.None?)
    && (b.Some? ==> best == Some(visited[b.value]) && bestDistance == dist(input, visited[b.value].embedding))
  }

  lemma TracksSnoc(visited: seq<Candidate>, c: Candidate, input: Embedding, dist: (Embedding, Embedding) -> real,
                   best: Option<Candidate>, bestDistance: real)
    requires Tracks(visited, input, dist, best, bestDistance)
    ensures var closer := best.None? || dist(input, c.embedding) < bestDistance;
      Tracks(visited + [c], input, dist, if closer then Some(c) else best,
             if closer then dist(input, c.embedding) else bestDistance)
  {
    BestIndexSnoc(visited, c, input, dist);
  }

  /** The inner loop of `recognize_face`: one employee's angles. */
  method ScanAngles(id: string, angles: seq<AngleEmbedding>, input: Embedding, dist: (Embedding, Embedding) -> real,
                    ghost before: seq<Candidate>, best0: Option<Candidate>, bestDistance0: real)
    returns (best: Option<Candidate>, bestDistance: real)
    requires Tracks(before, input, dist, best0, bestDistance0)
    ensures Tracks(before + AngleCandidates(id, angles), input, dist, best, bestDistance)
  {
    best, bestDistance := best0, bestDistance0;
    ghost var visited := before;
    assert before + AngleCandidates(id, angles[..0]) == before;
    for j := 0 to |angles|
      invariant visited == before + AngleCandidates(id, angles[..j])
      invariant Tracks(visited, input, dist, best, bestDistance)
    {
      var stored := angles[j];
      var c := Candidate(id, stored.angle, stored.embedding);
      var d := dist(input, stored.embedding);
      VisitedSnoc(before, id, angles, j);
      TracksSnoc(visited, c, input, dist, best, bestDistance);
      if best.None? || d < bestDistance {
        best := Some(c);
        bestDistance := d;
      }
      visited := visited + [c];
    }
    assert angles[..|angles|] == angles;
  }

  lemma VisitedSnoc(before: seq<Candidate>, id: string, angles: seq<AngleEmbedding>, j: nat)
    requires j < |angles|
    ensures before + AngleCandidates(id, angles[..j + 1]) ==
            (before + AngleCandidates(id, angles[..j])) + [Candidate(id, angles[j].angle, angles[j].embedding)]
  {
    AngleCandidatesSnoc(id, angles, j);
  }

  lemma AngleCandidatesSnoc(id: string, angles: seq<AngleEmbedding>, j: nat)
    requires j < |angles|
    ensures AngleCandidates(id, angles[..j + 1]) ==
            AngleCandidates(id, angles[..j]) + [Candidate(id, angles[j].angle, angles[j].embedding)]
  {
    assert angles[..j + 1][..j] == angles[..j];
  }

  lemma CandidatesSnoc(store: seq<EmployeeEmbeddings>, i: nat)
    requires i < |store|
    ensures Candidates(store[..i + 1]) ==
            Candidates(store[..i]) + AngleCandidates(store[i].employeeId, store[i].angles[..|store[i].angles|])
  {
    assert store[..i + 1][..i] == store[..i];
    assert store[i].angles[..|store[i].angles|] == store[i].angles;
  }

  /** The reply of `recognize_face`; a missing best distance stands for
      the infinite initial value. */
  datatype Recognition =
    | Recognized(employeeId: string, name: string, confidence: real, distance: real, angleMatched: string)
    | NotRecognized(reason: string, bestDistance: Option<real>, threshold: real)
    | RecognitionError(error: string)

  /** `1 - d if d < 1 else 0`. */
  function Confidence(d: real): (c: real)
    ensures d >= 0.0 ==> 0.0 <= c <= 1.0
    ensures d < 1.0 ==> c == 1.0 - d
    ensures d >= 1.0 ==> c == 0.0
  {
    if d < 1.0 then 1.0 - d else 0.0
  }

  /** An employee document's name, or "Unknown" when the employee or the
      name is missing. */
  function NameOf(names: map<string, Option<string>>, id: string): string
  {
    if id in names && names[id].Some? then names[id].value else "Unknown"
  }

  /** What `recognize_face` answers over a given store. */
  function Recognize(store: seq<EmployeeEmbeddings>, extraction: Extraction, dist: (Embedding, Embedding) -> real,
                     names: map<string, Option<string>>, threshold: real): Recognition
  {
    match extraction
    case BadImage => RecognitionError("Invalid image data")
    case NoEmbedding => RecognitionError("No face detected")
    case Embedded(input) =>
      var cs := Candidates(store);
      match BestIndex(cs, input, dist)
      case None => NotRecognized("No match found above threshold", None, threshold)
      case Some(b) =>
        var d := dist(input, cs[b].embedding);
        if d < threshold then Recognized(cs[b].employeeId, NameOf(names, cs[b].employeeId), Confidence(d), d, cs[b].angle)
        else NotRecognized("No match found above threshold", Some(d), threshold)
  }

  lemma CandidatesEmpty(store: seq<EmployeeEmbeddings>)
    requires forall i :: 0 <= i < |store| ==> |store[i].angles| == 0
    ensures Candidates(store) == []
  {
    if |store| > 0 {
      CandidatesEmpty(store[..|store| - 1]);
    }
  }

  /** A recognition names a stored (employee, angle) whose distance is below
      the threshold and no larger than any other stored distance; an
      empty store never recognises anyone. */
  lemma RecognizeMeaning(store: seq<EmployeeEmbeddings>, input: Embedding, dist: (Embedding, Embedding) -> real,
                         names: map<string, Option<string>>, threshold: real)
    ensures var r := Recognize(store, Embedded(input), dist, names, threshold);
      && (|store| == 0 ==> r.NotRecognized? && r.bestDistance.None?)
      && (r.Recognized? ==>
            && r.distance < threshold
            && (exists k :: 0 <= k < |Candidates(store)| &&
                  Candidates(store)[k] == Candidate(r.employeeId, r.angleMatched, Candidates(store)[k].embedding) &&
                  r.distance == dist(input, Candidates(store)[k].embedding))
            && (forall c :: c in Candidates(store) ==> r.distance <= dist(input, c.embedding)))
      && (r.NotRecognized? && r.bestDistance.Some? ==> threshold <= r.bestDistance.value)
      && (r.NotRecognized? ==> forall c :: c in Candidates(store) ==> threshold <= dist(input, c.embedding))
  {
    var cs := Candidates(store);
    if |store| == 0 {
      assert cs == [];
    }
    match BestIndex(cs, input, dist)
    case None =>
    case Some(b) =>
      forall c | c in cs ensures dist(input, cs[b].embedding) <= dist(input, c.embedding) {
        var j :| 0 <= j < |cs| && cs[j] == c;
      }
  }

  // ---------------------------------------------------------------------
  // The service
  // ---------------------------------------------------------------------

  /** The reply of `register_employee_face`. */
  datatype Registration = Registered(employeeId: string, angle: string, embeddingSize: nat)
                        | RegistrationFailed(error: string)

  /** An employee document as `train_all_employees` reads it; an empty
      string stands for a missing or empty `face_image`. */
  datatype EmployeeDoc = EmployeeDoc(employeeId: string, faceImage: string)

  /** The store after training on `docs` in order. */
  function Trained(store: seq<EmployeeEmbeddings>, docs: seq<EmployeeDoc>, extract: string -> Extraction)
    : seq<EmployeeEmbeddings>
  {
    if |docs| == 0 then store
    else
      var d := docs[|docs| - 1];
      var s := Trained(store, docs[..|docs| - 1], extract);
      if d.faceImage != "" && extract(d.faceImage).Embedded? then Put(s, d.employeeId, "frontal", extract(d.faceImage).embedding)
      else s
  }

  function CountTrained(docs: seq<EmployeeDoc>, extract: string -> Extraction): nat
  {
    if |docs| == 0 then 0
    else CountTrained(docs[..|docs| - 1], extract) +
         (if docs[|docs| - 1].faceImage != "" && extract(docs[|docs| - 1].faceImage).Embedded? then 1 else 0)
  }

  function CountFailed(docs: seq<EmployeeDoc>, extract: string -> Extraction): nat
  {
    if |docs| == 0 then 0
    else CountFailed(docs[..|docs| - 1], extract) +
         (if docs[|docs| - 1].faceImage != "" && !extract(docs[|docs| - 1].faceImage).Embedded? then 1 else 0)
  }

  function CountWithImage(docs: seq<EmployeeDoc>): nat
  {
    if |docs| == 0 then 0
    else CountWithImage(docs[..|docs| - 1]) + (if docs[|docs| - 1].faceImage != "" then 1 else 0)
  }

  /** Every employee with an image is either trained or failed, and one
      without an image is neither; so trained + failed never exceeds the
      number of employees. */
  lemma {:induction false} TrainingCounts(docs: seq<EmployeeDoc>, extract: string -> Extraction)
    ensures CountTrained(docs, extract) + CountFailed(docs, extract) == CountWithImage(docs)
    ensures CountWithImage(docs) <= |docs|
  {
    if |docs| > 0 {
      TrainingCounts(docs[..|docs| - 1], extract);
    }
  }

  /** `get_training_stats`: the number of trained employees and their ids. */
  datatype TrainingStats = TrainingStats(totalTrainedEmployees: nat, employees: seq<string>)

  class DeepFaceService {
    var store: seq<EmployeeEmbeddings>

    ghost predicate Valid()
      reads this
    {
      StoreValid(store)
    }

    /** Starts from the embeddings loaded from disk (empty when none). */
    constructor (loaded: seq<EmployeeEmbeddings>)
      requires StoreValid(loaded)
      ensures Valid() && store == loaded
    {
      store := loaded;
    }

    /** `register_employee_face`: a failed decode or embedding leaves the
        store alone; otherwise the embedding is stored under (id, angle). */
    method RegisterEmployeeFace(id: string, extraction: Extraction, angle: string) returns (r: Registration)
      requires Valid()
      modifies this
      ensures Valid()
      ensures extraction.BadImage? ==> r == RegistrationFailed("Invalid image data") && store == old(store)
      ensures extraction.NoEmbedding? ==> r == RegistrationFailed("No face detected or embedding failed") && store == old(store)
      ensures extraction.Embedded? ==>
        && r == Registered(id, angle, |extraction.embedding|)
        && store == Put(old(store), id, angle, extraction.embedding)
        && Lookup(store, id, angle) == Some(extraction.embedding)
    {
      match extraction
      case BadImage =>
        r := RegistrationFailed("Invalid image data");
      case NoEmbedding =>
        r := RegistrationFailed("No face detected or embedding failed");
      case Embedded(e) =>
        PutProperties(store, id, angle, e);
        store := Put(store, id, angle, e);
        r := Registered(id, angle, |e|);
    }

    /** `recognize_face`: the nested loop over employees and their angles
        keeps the first strictly closest stored embedding. */
    method RecognizeFace(extraction: Extraction, dist: (Embedding, Embedding) -> real,
                         names: map<string, Option<string>>, threshold: real) returns (r: Recognition)
      ensures r == Recognize(store, extraction, dist, names, threshold)
    {
      if extraction.BadImage? {
        return RecognitionError("Invalid image data");
      }
      if extraction.NoEmbedding? {
        return RecognitionError("No face detected");
      }
      var input := extraction.embedding;
      var best: Option<Candidate> := None;
      var bestDistance: real := 0.0;
      assert store[..0] == [];
      for i := 0 to |store|
        invariant Tracks(Candidates(store[..i]), input, dist, best, bestDistance)
      {
        CandidatesSnoc(store, i);
        assert store[i].angles[..|store[i].angles|] == store[i].angles;
        best, bestDistance := ScanAngles(store[i].employeeId, store[i].angles, input, dist,
                                         Candidates(store[..i]), best, bestDistance);
      }
      assert store[..|store|] == store;
      if best.Some? && bestDistance < threshold {
        var c := best.value;
        r := Recognized(c.employeeId, NameOf(names, c.employeeId), Confidence(bestDistance), bestDistance, c.angle);
      } else {
        r := NotRecognized("No match found above threshold", if best.Some? then Some(bestDistance) else None, threshold);
      }
    }

    /** `train_all_employees`: registers the frontal image of every employee
        that has one, counting successes and failures. */
    method TrainAllEmployees(docs: seq<EmployeeDoc>, extract: string -> Extraction)
      returns (totalEmployees: nat, trained: nat, failed: nat)
      requires Valid()
      modifies this
      ensures Valid()
      ensures store == Trained(old(store), docs, extract)
      ensures totalEmployees == |docs|
      ensures trained == CountTrained(docs, extract) && failed == CountFailed(docs, extract)
    {
      ghost var store0 := store;
      trained, failed := 0, 0;
      for i := 0 to |docs|
        invariant Valid()
        invariant store == Trained(store0, docs[..i], extract)
        invariant trained == CountTrained(docs[..i], extract) && failed == CountFailed(docs[..i], extract)
      {
        assert docs[..i + 1][..i] == docs[..i];
        var d := docs[i];
        if d.faceImage != "" {
          var r := RegisterEmployeeFace(d.employeeId, extract(d.faceImage), "frontal");
          if r.Registered? {
            trained := trained + 1;
          } else {
            failed := failed + 1;
          }
        }
      }
      assert docs[..|docs|] == docs;
      totalEmployees := |docs|;
    }

    /** `get_training_stats`: one entry per stored employee, in insertion
        order, and the count of them. */
    method GetTrainingStats() returns (stats: TrainingStats)
      requires Valid()
      ensures stats.employees == Keys(store)
      ensures stats.totalTrainedEmployees == |stats.employees|
      ensures forall id :: id in stats.employees <==> EmployeeIndex(store, id).Some?
      ensures forall i, j :: 0 <= i < j < |stats.employees| ==> stats.employees[i] != stats.employees[j]
    {
      stats := TrainingStats(|store|, Keys(store));
      forall id | id in stats.employees ensures EmployeeIndex(store, id).Some? {
        var i :| 0 <= i < |store| && stats.employees[i] == id;
      }
    }
  }
}
