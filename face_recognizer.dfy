/** `InsightFaceRecognizer` (src/face_recognizer.py): the external model's
    output, the largest-face rule, the nearest-match decision rule, verification
    of two images, and the recognizer object that owns the face database. The
    model (`FaceAnalysis.get`) is an oracle: its answer for an image is an input
    here. Cosine similarity is a parameter `sim`. */
module FaceRecognizer {
  import opened Wrappers
  import opened Text
  import opened FaceDb

  /** A bounding box `[x0, y0, x1, y1]`. */
  datatype Box<T> = Box(x0: T, y0: T, x1: T, y1: T)

  /** One face as the model returns it: a float box, the embedding, the
      detection score and the optional age and gender attributes. */
  datatype Face = Face(bbox: Box<real>, embedding: Embedding, detScore: real, age: Option<real>, gender: Option<int>)

  /** One entry of `detect_faces`: the same face with its box cast to ints. */
  datatype FaceInfo = FaceInfo(bbox: Box<int>, embedding: Embedding, score: real, age: Option<real>, gender: Option<int>)

  /** One result of `recognize_face`. */
  datatype MatchResult = MatchResult(bbox: Box<int>, name: Name, confidence: real, age: Option<real>, gender: Option<int>)

  /** What the model does with one frame: it raises, or it returns faces. */
  datatype Detection = Raised | Detected(faces: seq<Face>)

  /** What `add_face_to_database` finds at an image path. */
  datatype ImageLoad = Missing | Unreadable | Loaded(faces: seq<Face>)

  /** What `recognize_face` does: it raises (the model raised), or it returns results. */
  datatype Recognition = Failed | Results(results: seq<MatchResult>)

  type Similarity = (Embedding, Embedding) -> real

  const Unknown: Name := "Unknown"

  /** The fixed threshold of `verify_faces`. */
  const VerifyThreshold: real := 0.5

  /** Python's `int(x)` and numpy's `astype(int)` on a float: towards zero. */
  function Trunc(x: real): (r: int)
    ensures x >= 0.0 ==> 0.0 <= r as real <= x < r as real + 1.0
    ensures x < 0.0 ==> r as real - 1.0 < x <= r as real <= 0.0
  {
    if x >= 0.0 then x.Floor else -((-x).Floor)
  }

  /** `np.argmax` and `max(..., key=...)`: the first index of a maximum. */
  function FirstMaxIndex(s: seq<real>): (i: nat)
    requires |s| > 0
    ensures i < |s|
    ensures forall j :: 0 <= j < |s| ==> s[j] <= s[i]
    ensures forall j :: 0 <= j < i ==> s[j] < s[i]
  {
    if |s| == 1 then 0
    else
      var i := FirstMaxIndex(s[..|s| - 1]);
      if s[|s| - 1] > s[i] then |s| - 1 else i
  }

  function Area(f: Face): real {
    (f.bbox.x1 - f.bbox.x0) * (f.bbox.y1 - f.bbox.y0)
  }

  /** The face `extract_face_embedding` picks: one of largest area, the first
      one on ties. */
  function LargestFace(faces: seq<Face>): (i: nat)
    requires |faces| > 0
    ensures i < |faces|
    ensures forall j :: 0 <= j < |faces| ==> Area(faces[j]) <= Area(faces[i])
    ensures forall j :: 0 <= j < i ==> Area(faces[j]) < Area(faces[i])
  {
    var areas := seq(|faces|, j requires 0 <= j < |faces| => Area(faces[j]));
    assert forall j :: 0 <= j < |faces| ==> areas[j] == Area(faces[j]);
    FirstMaxIndex(areas)
  }

  /** `extract_face_embedding`: no face gives None, otherwise the embedding of
      the largest face. */
  function ExtractFaceEmbedding(faces: seq<Face>): (r: Option<Embedding>)
    ensures r.None? <==> faces == []
    ensures r.Some? ==> r.value == faces[LargestFace(faces)].embedding
  {
    if faces == [] then None else Some(faces[LargestFace(faces)].embedding)
  }

  /** The embedding `add_face_to_database` gets from an image path, if any. */
  function LoadedEmbedding(image: ImageLoad): (r: Option<Embedding>)
    ensures r.Some? <==> image.Loaded? && image.faces != []
  {
    match image
    case Missing => None
    case Unreadable => None
    case Loaded(faces) => ExtractFaceEmbedding(faces)
  }

  /** `detect_faces`: every face, in the model's order, with an int box. */
  function DetectFaces(faces: seq<Face>): (r: seq<FaceInfo>)
    ensures |r| == |faces|
    ensures forall k :: 0 <= k < |faces| ==> r[k].embedding == faces[k].embedding
  {
    seq(|faces|, k requires 0 <= k < |faces| =>
      var f := faces[k];
      FaceInfo(Box(Trunc(f.bbox.x0), Trunc(f.bbox.y0), Trunc(f.bbox.x1), Trunc(f.bbox.y1)),
               f.embedding, f.detScore, f.age, f.gender))
  }

  /** `cosine_similarity(embedding, embeddings)[0]`. */
  function Similarities(q: Embedding, embeddings: seq<Embedding>, sim: Similarity): (r: seq<real>)
    ensures |r| == |embeddings|
    ensures forall j :: 0 <= j < |embeddings| ==> r[j] == sim(q, embeddings[j])
  {
    seq(|embeddings|, j requires 0 <= j < |embeddings| => sim(q, embeddings[j]))
  }

  /** The index of the best match: a most similar embedding, the first one on ties. */
  function BestMatch(q: Embedding, embeddings: seq<Embedding>, sim: Similarity): (i: nat)
    requires |embeddings| > 0
    ensures i < |embeddings|
    ensures forall j :: 0 <= j < |embeddings| ==> sim(q, embeddings[j]) <= sim(q, embeddings[i])
    ensures forall j :: 0 <= j < i ==> sim(q, embeddings[j]) < sim(q, embeddings[i])
  {
    FirstMaxIndex(Similarities(q, embeddings, sim))
  }

  /** The decision rule of `recognize_face` for one face: the best match's label
      if its similarity reaches the threshold (inclusive), "Unknown" otherwise;
      the best similarity is reported either way. */
  function Resolve(q: Embedding, embeddings: seq<Embedding>, labels: seq<Name>, threshold: real, sim: Similarity): (r: (Name, real))
    requires |embeddings| == |labels| > 0
    ensures forall j :: 0 <= j < |embeddings| ==> sim(q, embeddings[j]) <= r.1
    ensures r.1 == sim(q, embeddings[BestMatch(q, embeddings, sim)])
    ensures r.1 >= threshold ==> r.0 == labels[BestMatch(q, embeddings, sim)]
    ensures r.1 < threshold ==> r.0 == Unknown
    ensures r.0 in labels || r.0 == Unknown
  {
    var i := BestMatch(q, embeddings, sim);
    var best := sim(q, embeddings[i]);
    (if best >= threshold then labels[i] else Unknown, best)
  }

  /** The result `recognize_face` reports for one detected face. */
  function ResultFor(info: FaceInfo, embeddings: seq<Embedding>, labels: seq<Name>, threshold: real, sim: Similarity): (r: MatchResult)
    requires |embeddings| == |labels| > 0
    ensures (r.name, r.confidence) == Resolve(info.embedding, embeddings, labels, threshold, sim)
    ensures r.bbox == info.bbox && r.age == info.age && r.gender == info.gender
  {
    var (name, confidence) := Resolve(info.embedding, embeddings, labels, threshold, sim);
    MatchResult(info.bbox, name, confidence, info.age, info.gender)
  }

  /** Similarity exactly at the threshold is a match. */
  lemma ThresholdIsInclusive(q: Embedding, e: Embedding, person: Name, threshold: real, sim: Similarity)
    requires sim(q, e) == threshold
    ensures Resolve(q, [e], [person], threshold, sim) == (person, threshold)
  {
    assert BestMatch(q, [e], sim) == 0;
  }

  /** Database {alice: [e1], bob: [e2]}: querying e1 with similarities 1.0 and
      0.1 at threshold 0.5 gives alice with 1.0; a query that matches no one
      above 0.5 gives Unknown with its best similarity, below 0.5. */
  lemma TwoPersonScenario(e1: Embedding, e2: Embedding, q: Embedding, sim: Similarity)
    requires sim(e1, e1) == 1.0 && sim(e1, e2) == 0.1
    requires sim(q, e1) < 0.5 && sim(q, e2) < 0.5
    ensures Resolve(e1, [e1, e2], ["alice", "bob"], 0.5, sim) == ("alice", 1.0)
    ensures var r := Resolve(q, [e1, e2], ["alice", "bob"], 0.5, sim);
      r.0 == Unknown && r.1 < 0.5
  {
    var i := BestMatch(e1, [e1, e2], sim);
    assert sim(e1, [e1, e2][0]) == 1.0;
    var j := BestMatch(q, [e1, e2], sim);
    assert sim(q, [e1, e2][j]) < 0.5;
  }

  /** The result of `verify_faces`. */
  datatype Verification = Verification(verified: bool, similarity: real, error: Option<string>)

  /** `verify_faces`, given what the model found in each image: a missing face
      in either gives (False, 0.0, error); otherwise the pair is verified iff
      its similarity is at least 0.5, and there is no error. */
  function VerifyFaces(faces1: seq<Face>, faces2: seq<Face>, sim: Similarity): (r: Verification)
    ensures r.error.None? <==> faces1 != [] && faces2 != []
    ensures r.error.Some? ==> !r.verified && r.similarity == 0.0
    ensures r.error.None? ==>
      r.similarity == sim(ExtractFaceEmbedding(faces1).value, ExtractFaceEmbedding(faces2).value)
    ensures r.verified <==> r.error.None? && r.similarity >= VerifyThreshold
  {
    var e1 := ExtractFaceEmbedding(faces1);
    var e2 := ExtractFaceEmbedding(faces2);
    if e1.None? || e2.None? then
      Verification(false, 0.0, Some("No face detected in one or both images"))
    else
      var similarity := sim(e1.value, e2.value);
      Verification(similarity >= VerifyThreshold, similarity, None)
  }

  // ---- Loading a directory tree -------------------------------------------------

  /** `str.rfind('.')`. */
  function LastDot(name: string): (r: Option<nat>)
    ensures r.Some? ==> r.value < |name| && name[r.value] == '.' && '.' !in name[r.value + 1..]
    ensures r.None? ==> '.' !in name
  {
    if name == [] then None
    else if name[|name| - 1] == '.' then Some(|name| - 1)
    else
      var r := LastDot(name[..|name| - 1]);
      assert name == name[..|name| - 1] + [name[|name| - 1]];
      if r.Some? then assert name[r.value + 1..] == name[..|name| - 1][r.value + 1..] + [name[|name| - 1]]; r
      else r
  }

  /** `PurePath.suffix`: from the last dot on, unless that dot is the first or
      the last character of the name. */
  function Suffix(name: string): (r: string)
    ensures r != [] <==> LastDot(name).Some? && 0 < LastDot(name).value < |name| - 1
    ensures r != [] ==> r == name[LastDot(name).value..]
    ensures r != [] ==> 0 < |name| - |r| && r == name[|name| - |r|..] && |r| >= 2 && r[0] == '.' && '.' !in r[1..]
  {
    var d := LastDot(name);
    if d.Some? && 0 < d.value < |name| - 1 then name[d.value..] else ""
  }

  /** The extension filter of `load_faces_from_directory`. */
  predicate IsImageFile(name: string) {
    Lower(Suffix(name)) in [".jpg", ".jpeg", ".png", ".bmp"]
  }

  lemma AcceptedSuffixes()
    ensures IsImageFile("face.JPG") && IsImageFile("a.b.png")
  {
    assert LastDot("face.JPG") == Some(4);
    assert Suffix("face.JPG") == ".JPG";
    assert Lower(".JPG") == ".jpg";
    assert LastDot("a.b.png") == Some(3);
    assert Suffix("a.b.png") == ".png";
    assert Lower(".png") == ".png";
  }

  /** A dot-file has no suffix, and only the last suffix counts. */
  lemma RejectedSuffixes()
    ensures !IsImageFile(".jpg") && !IsImageFile("face.jpg.txt")
  {
    assert LastDot(".jpg") == Some(0);
    assert LastDot("face.jpg.txt") == Some(8);
    assert Suffix("face.jpg.txt") == ".txt";
    assert Lower(".txt") == ".txt";
  }

  /** A file under a person's folder, as `glob("*")` lists it. */
  datatype ImageFile = ImageFile(fileName: string, path: string, image: ImageLoad)

  /** An entry of the root folder: a person's folder, or anything else. */
  datatype DirEntry = DirEntry(name: string, isDir: bool, files: seq<ImageFile>)

  datatype Directory = NotFound | Found(entries: seq<DirEntry>)

  /** The call of `add_face_to_database` one file leads to: none unless its
      extension passes the filter. */
  function FileRequest(person: Name, f: ImageFile): (r: seq<AddRequest>)
    ensures |r| <= 1
    ensures r != [] <==> IsImageFile(f.fileName)
  {
    if IsImageFile(f.fileName) then [AddRequest(person, f.path, LoadedEmbedding(f.image))] else []
  }

  /** The calls of `add_face_to_database` one person folder leads to. */
  function FolderRequests(person: Name, files: seq<ImageFile>): (r: seq<AddRequest>)
    ensures |r| <= |files|
    ensures forall a :: a in r <==>
      exists f :: f in files && IsImageFile(f.fileName) && a == AddRequest(person, f.path, LoadedEmbedding(f.image))
  {
    if files == [] then []
    else FolderRequests(person, files[..|files| - 1]) + FileRequest(person, files[|files| - 1])
  }

  /** The calls of `add_face_to_database` a whole tree leads to, in iteration order. */
  function TreeRequests(entries: seq<DirEntry>): (r: seq<AddRequest>)
    ensures forall a :: a in r <==> exists e :: e in entries && e.isDir && a in FolderRequests(e.name, e.files)
  {
    if entries == [] then []
    else
      var e := entries[|entries| - 1];
      TreeRequests(entries[..|entries| - 1]) + (if e.isDir then FolderRequests(e.name, e.files) else [])
  }

  lemma TreeRequestsStep(entries: seq<DirEntry>, i: nat)
    requires i < |entries|
    ensures TreeRequests(entries[..i + 1])
         == TreeRequests(entries[..i]) + (if entries[i].isDir then FolderRequests(entries[i].name, entries[i].files) else [])
  {
    assert entries[..i + 1][..i] == entries[..i];
  }

  lemma FolderRequestsStep(person: Name, files: seq<ImageFile>, j: nat)
    requires j < |files|
    ensures FolderRequests(person, files[..j + 1]) == FolderRequests(person, files[..j]) + FileRequest(person, files[j])
  {
    assert files[..j + 1][..j] == files[..j];
  }

  lemma AddFacesSnoc(s: DbState, adds: seq<AddRequest>, a: AddRequest)
    ensures AddFaces(s, adds + [a]) == AddFace(AddFaces(s, adds), a.name, a.imagePath, a.embedding)
    ensures SuccessLabels(adds + [a]) == SuccessLabels(adds) + (if a.embedding.Some? then [a.name] else [])
  {
    assert (adds + [a])[..|adds|] == adds;
  }

  /** The same step seen on the prefixes of one run. */
  lemma AddFacesPrefixStep(s: DbState, adds: seq<AddRequest>, k: nat)
    requires k < |adds|
    ensures AddFaces(s, adds[..k + 1]) == AddFace(AddFaces(s, adds[..k]), adds[k].name, adds[k].imagePath, adds[k].embedding)
    ensures |SuccessLabels(adds[..k + 1])| == |SuccessLabels(adds[..k])| + (if adds[k].embedding.Some? then 1 else 0)
  {
    assert adds[..k + 1] == adds[..k] + [adds[k]];
    AddFacesSnoc(s, adds[..k], adds[k]);
  }

  /** The statistics `get_database_stats` returns. */
  datatype DatabaseStats = DatabaseStats(totalPeople: nat, totalFaces: nat, people: seq<(Name, nat)>)

  function SumCounts(people: seq<(Name, nat)>): nat {
    if people == [] then 0 else SumCounts(people[..|people| - 1]) + people[|people| - 1].1
  }

  lemma {:induction false} SumCountsIsTotalFaces(db: seq<Person>, people: seq<(Name, nat)>)
    requires |people| == |db|
    requires forall i :: 0 <= i < |db| ==> people[i] == (db[i].0, |db[i].1|)
    ensures SumCounts(people) == TotalFaces(db)
  {
    if db != [] {
      SumCountsIsTotalFaces(db[..|db| - 1], people[..|people| - 1]);
    }
  }

  /** What `recognize_face` answers for one frame on the database state `s`:
      no results, without asking the model, when the database is empty; None
      when the detector raises; otherwise one result per detected face, in
      detection order. */
  function RecognizeResults(s: DbState, detection: Detection, threshold: real, sim: Similarity): (r: Option<seq<MatchResult>>)
    requires Inv(s)
    ensures |s.embeddings| == 0 ==> r == Some([])
    ensures |s.embeddings| > 0 ==> (r.None? <==> detection.Raised?)
    ensures r.Some? && |s.embeddings| > 0 ==>
      && |r.value| == |detection.faces|
      && forall k :: 0 <= k < |r.value| ==> r.value[k] == ResultFor(DetectFaces(detection.faces)[k], s.embeddings, s.labels, threshold, sim)
    ensures r.Some? ==> forall m :: m in r.value ==> m.name in s.labels || m.name == Unknown
  {
    if |s.embeddings| == 0 then Some([])
    else if detection.Raised? then None
    else
      var infos := DetectFaces(detection.faces);
      Some(seq(|infos|, k requires 0 <= k < |infos| => ResultFor(infos[k], s.embeddings, s.labels, threshold, sim)))
  }

  /** The recognizer object: its three database fields, changed in place. */
  class Recognizer {
    var faceDatabase: PersonMap
    var embeddings: seq<Embedding>
    var labels: seq<Name>

    function State(): DbState
      reads this
    {
      DbState(faceDatabase, embeddings, labels)
    }

    predicate Valid()
      reads this
    {
      Inv(State())
    }

    /** The database fields of `__init__`: all empty. */
    constructor ()
      ensures Valid() && State() == Empty
    {
      faceDatabase, embeddings, labels := [], [], [];
      EmptyInv();
    }

    /** `add_face_to_database` given what the image path yields. */
    method AddFaceToDatabase(imagePath: string, personName: Name, image: ImageLoad) returns (ok: bool)
      requires Valid()
      modifies this
      ensures Valid()
      ensures ok <==> image.Loaded? && image.faces != []
      ensures State() == AddFace(old(State()), personName, imagePath, LoadedEmbedding(image))
    {
      var embedding := LoadedEmbedding(image);
      AddFacePreservesInv(State(), personName, imagePath, embedding);
      if embedding.None? {
        return false;
      }
      faceDatabase := AddEntry(faceDatabase, personName, FaceEntry(embedding.value, imagePath));
      embeddings := embeddings + [embedding.value];
      labels := labels + [personName];
      return true;
    }

    /** `load_faces_from_directory`: every image file of every person folder is
        added under the folder's name; the count is the number of successful adds. */
    method LoadFacesFromDirectory(root: Directory) returns (facesLoaded: nat)
      requires Valid()
      modifies this
      ensures Valid()
      ensures root.NotFound? ==> facesLoaded == 0 && State() == old(State())
      ensures root.Found? ==> State() == AddFaces(old(State()), TreeRequests(root.entries))
      ensures root.Found? ==> facesLoaded == |SuccessLabels(TreeRequests(root.entries))|
    {
      facesLoaded := 0;
      if root.NotFound? {
        return;
      }
      var entries := root.entries;
      ghost var start := State();
      for i := 0 to |entries|
        invariant Valid()
        invariant State() == AddFaces(start, TreeRequests(entries[..i]))
        invariant facesLoaded == |SuccessLabels(TreeRequests(entries[..i]))|
      {
        var e := entries[i];
        TreeRequestsStep(entries, i);
        if e.isDir {
          ghost var done := TreeRequests(entries[..i]);
          var n := LoadPersonFolder(e.name, e.files);
          AddFacesAppend(start, done, FolderRequests(e.name, e.files));
          facesLoaded := facesLoaded + n;
        } else {
          assert TreeRequests(entries[..i + 1]) == TreeRequests(entries[..i]);
        }
      }
      assert entries[..|entries|] == entries;
    }

    /** The inner loop of `load_faces_from_directory`, over one person's folder. */
    method LoadPersonFolder(person: Name, files: seq<ImageFile>) returns (facesLoaded: nat)
      requires Valid()
      modifies this
      ensures Valid()
      ensures State() == AddFaces(old(State()), FolderRequests(person, files))
      ensures facesLoaded == |SuccessLabels(FolderRequests(person, files))|
    {
      facesLoaded := 0;
      ghost var start := State();
      for j := 0 to |files|
        invariant Valid()
        invariant State() == AddFaces(start, FolderRequests(person, files[..j]))
        invariant facesLoaded == |SuccessLabels(FolderRequests(person, files[..j]))|
      {
        ghost var before := FolderRequests(person, files[..j]);
        FolderRequestsStep(person, files, j);
        var n := LoadImageFile(person, files[j]);
        AddFacesAppend(start, before, FileRequest(person, files[j]));
        facesLoaded := facesLoaded + n;
      }
      assert files[..|files|] == files;
    }

    /** The body of that inner loop, for one file. */
    method LoadImageFile(person: Name, f: ImageFile) returns (facesLoaded: nat)
      requires Valid()
      modifies this
      ensures Valid()
      ensures State() == AddFaces(old(State()), FileRequest(person, f))
      ensures facesLoaded == |SuccessLabels(FileRequest(person, f))|
    {
      facesLoaded := 0;
      if IsImageFile(f.fileName) {
        var a := AddRequest(person, f.path, LoadedEmbedding(f.image));
        assert [a][..0] == [];
        var ok := AddFaceToDatabase(f.path, person, f.image);
        if ok {
          facesLoaded := 1;
        }
      }
    }

    /** `recognize_face`: the answer `RecognizeResults` gives on the current
        state, with a failure when the detector raises. */
    method RecognizeFace(detection: Detection, threshold: real, sim: Similarity) returns (r: Recognition)
      requires Valid()
      ensures RecognizeResults(State(), detection, threshold, sim) == if r.Failed? then None else Some(r.results)
    {
      if |embeddings| == 0 {
        return Results([]);
      }
      if detection.Raised? {
        return Failed;
      }
      var faceInfo := DetectFaces(detection.faces);
      var results: seq<MatchResult> := [];
      for k := 0 to |faceInfo|
        invariant |results| == k
        invariant forall m :: 0 <= m < k ==> results[m] == ResultFor(faceInfo[m], embeddings, labels, threshold, sim)
      {
        var face := faceInfo[k];
        var similarities := Similarities(face.embedding, embeddings, sim);
        var bestMatchIdx := FirstMaxIndex(similarities);
        var bestSimilarity := similarities[bestMatchIdx];
        var recognizedName := if bestSimilarity >= threshold then labels[bestMatchIdx] else Unknown;
        results := results + [MatchResult(face.bbox, recognizedName, bestSimilarity, face.age, face.gender)];
      }
      assert results == RecognizeResults(State(), detection, threshold, sim).value;
      return Results(results);
    }

    /** `get_database_stats`: the number of persons, the number of flat
        embeddings and each person's face count in dict order; the counts add up
        to the total. */
    method GetDatabaseStats() returns (stats: DatabaseStats)
      requires Valid()
      ensures stats.totalPeople == |faceDatabase| && stats.totalFaces == |embeddings|
      ensures |stats.people| == |faceDatabase|
      ensures forall i :: 0 <= i < |faceDatabase| ==> stats.people[i] == (faceDatabase[i].0, |faceDatabase[i].1|)
      ensures SumCounts(stats.people) == stats.totalFaces
    {
      var people: seq<(Name, nat)> := [];
      for i := 0 to |faceDatabase|
        invariant |people| == i
        invariant forall k :: 0 <= k < i ==> people[k] == (faceDatabase[k].0, |faceDatabase[k].1|)
      {
        people := people + [(faceDatabase[i].0, |faceDatabase[i].1|)];
      }
      stats := DatabaseStats(|faceDatabase|, |embeddings|, people);
      SumCountsIsTotalFaces(faceDatabase, people);
      InvConsequences(State());
    }
  }
}
