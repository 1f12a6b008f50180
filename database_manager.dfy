/** `FaceDatabaseManager` (src/database_manager.py): removal of a person with
    the rebuild of the flat lists, the count checks of the integrity report, and
    enrolment from a list of images. The manager works directly on the fields of
    the recognizer it owns. */
module DatabaseManager {
  import opened Wrappers
  import opened FaceDb
  import opened FaceRecognizer

  /** The count problems `verify_database_integrity` reports. */
  datatype Issue =
    | EmbeddingsLabelsMismatch    // `len(embeddings) != len(labels)`
    | DatabaseEmbeddingsMismatch  // the dict's face count differs from `len(embeddings)`

  /** Equal zips of equally long lists come from equal lists. */
  lemma ZipInjective(l1: seq<Name>, e1: seq<Embedding>, l2: seq<Name>, e2: seq<Embedding>)
    requires |l1| == |e1| && |l2| == |e2|
    requires Zip(l1, e1) == Zip(l2, e2)
    ensures l1 == l2 && e1 == e2
  {
    assert |l1| == |Zip(l1, e1)| == |Zip(l2, e2)| == |l2|;
    forall i | 0 <= i < |l1| ensures l1[i] == l2[i] && e1[i] == e2[i] {
      assert Zip(l1, e1)[i] == Zip(l2, e2)[i];
    }
  }

  /** The calls of `add_face_to_database` that `add_person_from_images` makes,
      given what each image path yields. */
  function ImageRequests(personName: Name, images: seq<(string, ImageLoad)>): (r: seq<AddRequest>)
    ensures |r| == |images|
    ensures forall k :: 0 <= k < |images| ==> r[k] == AddRequest(personName, images[k].0, LoadedEmbedding(images[k].1))
  {
    seq(|images|, k requires 0 <= k < |images| => AddRequest(personName, images[k].0, LoadedEmbedding(images[k].1)))
  }

  /** Every label such a run appends is the person's name. */
  lemma ImageRequestsLabels(personName: Name, images: seq<(string, ImageLoad)>)
    ensures forall n :: n in SuccessLabels(ImageRequests(personName, images)) ==> n == personName
  {
    var adds := ImageRequests(personName, images);
    forall n | n in SuccessLabels(adds) ensures n == personName {
      var a :| a in adds && a.name == n && a.embedding.Some?;
    }
  }

  /** Flat lists whose pairs are the walk of the dict without `name` are the
      lists the specification of removal rebuilds. */
  lemma RebuildIsRemove(s: DbState, name: Name, labels: seq<Name>, embeddings: seq<Embedding>)
    requires name in Keys(s.faceDatabase)
    requires |labels| == |embeddings|
    requires Zip(labels, embeddings) == Flatten(RemoveKey(s.faceDatabase, name))
    ensures RemovePerson(s, name) == (true, DbState(RemoveKey(s.faceDatabase, name), embeddings, labels))
    ensures Inv(DbState(RemoveKey(s.faceDatabase, name), embeddings, labels))
  {
    var db := RemoveKey(s.faceDatabase, name);
    ZipOfFlat(db);
    ZipInjective(labels, embeddings, FlatLabels(db), FlatEmbeddings(db));
    RemovePersonSpec(s, name);
  }

  class Manager {
    const recognizer: Recognizer

    /** A manager over a fresh, empty recognizer. */
    constructor ()
      ensures fresh(recognizer) && recognizer.Valid() && recognizer.State() == Empty
    {
      recognizer := new Recognizer();
    }

    /** `remove_person`: an absent name reports False and changes nothing;
        otherwise the key is deleted and both flat lists are rebuilt, in dict
        order, from what remains. */
    method RemovePerson(personName: Name) returns (removed: bool)
      modifies recognizer
      ensures removed ==> recognizer.Valid()
      ensures old(recognizer.Valid()) ==> recognizer.Valid()
      ensures (removed, recognizer.State()) == FaceDb.RemovePerson(old(recognizer.State()), personName)
    {
      if personName !in Keys(recognizer.faceDatabase) {
        return false;
      }
      ghost var before := recognizer.State();
      recognizer.faceDatabase := RemoveKey(recognizer.faceDatabase, personName);
      recognizer.embeddings := [];
      recognizer.labels := [];
      var db := recognizer.faceDatabase;
      for i := 0 to |db|
        invariant recognizer.faceDatabase == db
        invariant |recognizer.labels| == |recognizer.embeddings|
        invariant Zip(recognizer.labels, recognizer.embeddings) == Flatten(db[..i])
      {
        assert db[..i + 1] == db[..i] + [db[i]];
        FlattenSnoc(db[..i], db[i]);
        var (name, faces) := db[i];
        AppendPersonFaces(name, faces);
      }
      assert db[..|db|] == db;
      RebuildIsRemove(before, personName, recognizer.labels, recognizer.embeddings);
      return true;
    }

    /** The inner rebuild loop of `remove_person`: one person's faces are
        appended, in order, to both flat lists; the dict is not touched. */
    method AppendPersonFaces(name: Name, faces: seq<FaceEntry>)
      requires |recognizer.labels| == |recognizer.embeddings|
      modifies recognizer
      ensures recognizer.faceDatabase == old(recognizer.faceDatabase)
      ensures |recognizer.labels| == |recognizer.embeddings|
      ensures Zip(recognizer.labels, recognizer.embeddings)
           == Zip(old(recognizer.labels), old(recognizer.embeddings)) + Owned(name, faces)
    {
      ghost var before := Zip(recognizer.labels, recognizer.embeddings);
      for j := 0 to |faces|
        invariant recognizer.faceDatabase == old(recognizer.faceDatabase)
        invariant |recognizer.labels| == |recognizer.embeddings|
        invariant Zip(recognizer.labels, recognizer.embeddings) == before + Owned(name, faces[..j])
      {
        ZipSnoc(recognizer.labels, recognizer.embeddings, name, faces[j].embedding);
        OwnedSnoc(name, faces[..j], faces[j]);
        assert faces[..j + 1] == faces[..j] + [faces[j]];
        recognizer.embeddings := recognizer.embeddings + [faces[j].embedding];
        recognizer.labels := recognizer.labels + [name];
      }
      assert faces[..|faces|] == faces;
    }

    /** The count checks of `verify_database_integrity`: each mismatch is
        reported, and the check passes iff there is none. A recognizer whose
        invariant holds always passes. */
    method VerifyDatabaseIntegrity() returns (ok: bool, issues: seq<Issue>)
      ensures EmbeddingsLabelsMismatch in issues <==> |recognizer.embeddings| != |recognizer.labels|
      ensures DatabaseEmbeddingsMismatch in issues <==> TotalFaces(recognizer.faceDatabase) != |recognizer.embeddings|
      ensures |issues| <= 2
      ensures ok <==> issues == []
      ensures recognizer.Valid() ==> ok
    {
      issues := [];
      if |recognizer.embeddings| != |recognizer.labels| {
        issues := issues + [EmbeddingsLabelsMismatch];
      }
      var db := recognizer.faceDatabase;
      var faceDbCount := 0;
      for i := 0 to |db|
        invariant faceDbCount == TotalFaces(db[..i])
      {
        assert db[..i + 1][..i] == db[..i];
        faceDbCount := faceDbCount + |db[i].1|;
      }
      assert db[..|db|] == db;
      if faceDbCount != |recognizer.embeddings| {
        issues := issues + [DatabaseEmbeddingsMismatch];
      }
      ok := |issues| == 0;
      if recognizer.Valid() {
        InvConsequences(recognizer.State());
      }
    }

    /** `add_person_from_images`: one `add_face_to_database` call per path, in
        order; the count is the number of successful calls, at most the number of
        paths, and every label appended is the person's name. */
    method AddPersonFromImages(personName: Name, images: seq<(string, ImageLoad)>) returns (addedCount: nat)
      requires recognizer.Valid()
      modifies recognizer
      ensures recognizer.Valid()
      ensures recognizer.State() == AddFaces(old(recognizer.State()), ImageRequests(personName, images))
      ensures addedCount == |SuccessLabels(ImageRequests(personName, images))| <= |images|
      ensures |recognizer.labels| == |old(recognizer.labels)| + addedCount
      ensures recognizer.labels[..|old(recognizer.labels)|] == old(recognizer.labels)
      ensures forall k :: |old(recognizer.labels)| <= k < |recognizer.labels| ==> recognizer.labels[k] == personName
    {
      addedCount := 0;
      ghost var start := recognizer.State();
      ghost var adds := ImageRequests(personName, images);
      for k := 0 to |images|
        invariant recognizer.Valid()
        invariant recognizer.State() == AddFaces(start, adds[..k])
        invariant addedCount == |SuccessLabels(adds[..k])|
      {
        var (imagePath, image) := images[k];
        var ok := recognizer.AddFaceToDatabase(imagePath, personName, image);
        AddFacesPrefixStep(start, adds, k);
        if ok {
          addedCount := addedCount + 1;
        }
      }
      assert adds[..|images|] == adds;
      AddFacesPreservesInv(start, adds);
      ImageRequestsLabels(personName, images);
      assert forall k :: |start.labels| <= k < |recognizer.labels| ==> recognizer.labels[k] in SuccessLabels(adds);
    }
  }
}
