/** The in-memory face database of `InsightFaceRecognizer`, as a value: the
    per-person dict `face_database` and the two flat search lists `embeddings`
    and `labels` (src/face_recognizer.py:43-45), with the two mutations the
    source performs on them, adding one face (src/face_recognizer.py:121-132)
    and removing a person with a rebuild of the flat lists
    (src/database_manager.py:100-109). The classes in FaceRecognizer and
    DatabaseManager hold these fields and are specified by these functions. */
module FaceDb {
  import opened Wrappers

  type Name = string

  /** A face embedding produced by the external model. The model never looks
      inside one: embeddings are only stored, moved and handed to a similarity
      function. */
  type Embedding = seq<real>

  /** One enrolled face: `{'embedding': ..., 'image_path': ...}`. */
  datatype FaceEntry = FaceEntry(embedding: Embedding, imagePath: string)

  type Person = (Name, seq<FaceEntry>)

  predicate DistinctNames(db: seq<Person>) {
    forall i, j :: 0 <= i < j < |db| ==> db[i].0 != db[j].0
  }

  /** `face_database`: a Python dict, so its keys are distinct and it iterates
      in insertion order. */
  type PersonMap = db: seq<Person> | DistinctNames(db) witness []

  /** The three fields of the recognizer that make up the database. */
  datatype DbState = DbState(faceDatabase: PersonMap, embeddings: seq<Embedding>, labels: seq<Name>)

  const Empty := DbState([], [], [])

  // ---- The dict ---------------------------------------------------------------

  /** `list(face_database.keys())`. */
  function Keys(db: seq<Person>): (ks: seq<Name>)
    ensures |ks| == |db| && forall i :: 0 <= i < |db| ==> ks[i] == db[i].0
  {
    seq(|db|, i requires 0 <= i < |db| => db[i].0)
  }

  /** Where `name` is in the dict. */
  function IndexOf(db: PersonMap, name: Name): (i: nat)
    requires name in Keys(db)
    ensures i < |db| && db[i].0 == name
    ensures forall j :: 0 <= j < |db| && db[j].0 == name ==> j == i
  {
    if db[0].0 == name then 0
    else assert Keys(db[1..]) == Keys(db)[1..]; 1 + IndexOf(db[1..], name)
  }

  /** `face_database.get(name)`. */
  function Lookup(db: PersonMap, name: Name): (r: Option<seq<FaceEntry>>)
    ensures r.Some? <==> name in Keys(db)
    ensures r.Some? ==> exists i :: 0 <= i < |db| && db[i] == (name, r.value)
  {
    if name in Keys(db) then Some(db[IndexOf(db, name)].1) else None
  }

  /** `face_database.setdefault(name, []).append(entry)`: an existing person
      keeps its place in the dict; a new person goes at the end. */
  function AddEntry(db: PersonMap, name: Name, entry: FaceEntry): (r: PersonMap)
    ensures Keys(r) == if name in Keys(db) then Keys(db) else Keys(db) + [name]
    ensures Lookup(r, name) == Some(if name in Keys(db) then Lookup(db, name).value + [entry] else [entry])
    ensures forall n :: n != name ==> Lookup(r, n) == Lookup(db, n)
  {
    if name in Keys(db) then
      var i := IndexOf(db, name);
      var r: PersonMap := db[i := (name, db[i].1 + [entry])];
      assert Keys(r) == Keys(db);
      assert IndexOf(r, name) == i;
      assert forall n :: n != name && n in Keys(db) ==> IndexOf(r, n) == IndexOf(db, n);
      r
    else
      var r: PersonMap := db + [(name, [entry])];
      assert Keys(r) == Keys(db) + [name];
      assert IndexOf(r, name) == |db|;
      assert forall n :: n != name && n in Keys(db) ==> IndexOf(r, n) == IndexOf(db, n);
      r
  }

  /** `del face_database[name]`: the other persons stay, in their order. */
  function RemoveKey(db: PersonMap, name: Name): (r: PersonMap)
    requires name in Keys(db)
    ensures name !in Keys(r)
    ensures forall n :: n != name ==> Lookup(r, n) == Lookup(db, n)
    ensures forall n :: n in Keys(r) <==> n in Keys(db) && n != name
    ensures Keys(r) == Keys(db)[..IndexOf(db, name)] + Keys(db)[IndexOf(db, name) + 1..]
  {
    var i := IndexOf(db, name);
    var r: PersonMap := db[..i] + db[i + 1..];
    assert forall j :: 0 <= j < |r| ==> r[j] == if j < i then db[j] else db[j + 1];
    KeysWithout(db, i);
    assert forall n :: n !in Keys(db) ==> n !in Keys(r);
    forall n | n != name && n in Keys(db)
      ensures n in Keys(r) && Lookup(r, n) == Lookup(db, n)
    {
      var j := IndexOf(db, n);
      var j' := if j < i then j else j - 1;
      assert Keys(r)[j'] == n;
      assert IndexOf(r, n) == j';
    }
    r
  }

  /** Cutting one person out of the dict cuts its name out of the keys. */
  lemma KeysWithout(db: seq<Person>, i: nat)
    requires i < |db|
    ensures Keys(db[..i] + db[i + 1..]) == Keys(db)[..i] + Keys(db)[i + 1..]
  {
    var r := db[..i] + db[i + 1..];
    assert forall j :: 0 <= j < |r| ==> r[j] == if j < i then db[j] else db[j + 1];
  }

  // ---- The flat lists -----------------------------------------------------------

  /** The (label, embedding) pairs one person contributes, in entry order. */
  function Owned(name: Name, entries: seq<FaceEntry>): (r: seq<(Name, Embedding)>)
    ensures |r| == |entries|
    ensures forall k :: 0 <= k < |entries| ==> r[k] == (name, entries[k].embedding)
  {
    seq(|entries|, k requires 0 <= k < |entries| => (name, entries[k].embedding))
  }

  /** Every person's pairs, walking the dict in order: what the nested loop of
      the rebuild appends. */
  function Flatten(db: seq<Person>): seq<(Name, Embedding)> {
    if db == [] then [] else Flatten(db[..|db| - 1]) + Owned(db[|db| - 1].0, db[|db| - 1].1)
  }

  /** `sum(len(faces) for faces in face_database.values())`. */
  function TotalFaces(db: seq<Person>): nat {
    if db == [] then 0 else TotalFaces(db[..|db| - 1]) + |db[|db| - 1].1|
  }

  function Zip(labels: seq<Name>, embeddings: seq<Embedding>): (r: seq<(Name, Embedding)>)
    requires |labels| == |embeddings|
    ensures |r| == |labels|
    ensures forall i :: 0 <= i < |r| ==> r[i] == (labels[i], embeddings[i])
  {
    seq(|labels|, i requires 0 <= i < |labels| => (labels[i], embeddings[i]))
  }

  /** The labels of the rebuilt flat list, in dict order. */
  function FlatLabels(db: seq<Person>): (r: seq<Name>)
    ensures |r| == |Flatten(db)|
    ensures forall i :: 0 <= i < |r| ==> r[i] == Flatten(db)[i].0
  {
    var f := Flatten(db);
    seq(|f|, i requires 0 <= i < |f| => f[i].0)
  }

  /** The embeddings of the rebuilt flat list, in dict order. */
  function FlatEmbeddings(db: seq<Person>): (r: seq<Embedding>)
    ensures |r| == |Flatten(db)|
    ensures forall i :: 0 <= i < |r| ==> r[i] == Flatten(db)[i].1
  {
    var f := Flatten(db);
    seq(|f|, i requires 0 <= i < |f| => f[i].1)
  }

  /** The database invariant: both flat lists have one element per enrolled
      face, and `labels[i]` is the owner of `embeddings[i]`, i.e. the pairs
      (labels[i], embeddings[i]) are, with their multiplicities, exactly the
      (person, embedding) pairs of the dict. The order may differ: an add
      appends to the end of the flat lists but to the middle of the dict's
      walk when the person was already there. */
  predicate Inv(s: DbState) {
    && |s.embeddings| == |s.labels|
    && multiset(Zip(s.labels, s.embeddings)) == multiset(Flatten(s.faceDatabase))
  }

  /** `owner` has an enrolled face with embedding `e`. */
  predicate Owns(db: PersonMap, owner: Name, e: Embedding) {
    exists i, k :: 0 <= i < |db| && 0 <= k < |db[i].1| && db[i].0 == owner && db[i].1[k].embedding == e
  }

  // ---- Operations ---------------------------------------------------------------

  /** The post-extraction part of `add_face_to_database`: with no embedding
      (file missing, image unreadable, no face) nothing changes; otherwise the
      entry goes to the person's list and the embedding and label to the end of
      the flat lists. */
  function AddFace(s: DbState, name: Name, imagePath: string, embedding: Option<Embedding>): DbState {
    if embedding.None? then s
    else DbState(AddEntry(s.faceDatabase, name, FaceEntry(embedding.value, imagePath)),
                 s.embeddings + [embedding.value], s.labels + [name])
  }

  /** One call of `add_face_to_database` with what its image yielded. */
  datatype AddRequest = AddRequest(name: Name, imagePath: string, embedding: Option<Embedding>)

  /** A run of `add_face_to_database` calls, in order. */
  function AddFaces(s: DbState, adds: seq<AddRequest>): DbState {
    if adds == [] then s
    else
      var a := adds[|adds| - 1];
      AddFace(AddFaces(s, adds[..|adds| - 1]), a.name, a.imagePath, a.embedding)
  }

  /** The labels the successful calls of a run append, in order. */
  function SuccessLabels(adds: seq<AddRequest>): (r: seq<Name>)
    ensures |r| <= |adds|
    ensures forall n :: n in r ==> exists a :: a in adds && a.name == n && a.embedding.Some?
  {
    if adds == [] then []
    else
      var a := adds[|adds| - 1];
      SuccessLabels(adds[..|adds| - 1]) + (if a.embedding.Some? then [a.name] else [])
  }

  /** The embeddings the successful calls of a run append, in order. */
  function SuccessEmbeddings(adds: seq<AddRequest>): (r: seq<Embedding>)
    ensures |r| == |SuccessLabels(adds)|
  {
    if adds == [] then []
    else
      var a := adds[|adds| - 1];
      SuccessEmbeddings(adds[..|adds| - 1]) + (if a.embedding.Some? then [a.embedding.value] else [])
  }

  /** `remove_person`: an absent name changes nothing and reports False;
      otherwise the key is deleted and both flat lists are rebuilt by walking
      the remaining dict in order. */
  function RemovePerson(s: DbState, name: Name): (r: (bool, DbState))
    ensures r.0 <==> name in Keys(s.faceDatabase)
    ensures !r.0 ==> r.1 == s
  {
    if name !in Keys(s.faceDatabase) then (false, s)
    else
      var db := RemoveKey(s.faceDatabase, name);
      (true, DbState(db, FlatEmbeddings(db), FlatLabels(db)))
  }

  // ---- Lemmas -------------------------------------------------------------------

  lemma EmptyInv()
    ensures Inv(Empty)
  {
    assert Zip([], []) == [];
  }

  lemma {:induction false} OwnedSnoc(name: Name, es: seq<FaceEntry>, e: FaceEntry)
    ensures Owned(name, es + [e]) == Owned(name, es) + [(name, e.embedding)]
  {
  }

  lemma {:induction false} FlattenSnoc(db: seq<Person>, p: Person)
    ensures Flatten(db + [p]) == Flatten(db) + Owned(p.0, p.1)
  {
    assert (db + [p])[..|db|] == db;
  }

  /** Appending an entry to one person's list adds exactly its pair to the walk. */
  lemma {:induction false} FlattenUpdate(db: seq<Person>, i: nat, e: FaceEntry)
    requires i < |db|
    ensures multiset(Flatten(db[i := (db[i].0, db[i].1 + [e])]))
         == multiset(Flatten(db)) + multiset{(db[i].0, e.embedding)}
  {
    var n := |db| - 1;
    var db' := db[i := (db[i].0, db[i].1 + [e])];
    if i == n {
      assert db'[..n] == db[..n];
      OwnedSnoc(db[i].0, db[i].1, e);
    } else {
      assert db'[..n] == db[..n][i := (db[i].0, db[i].1 + [e])];
      FlattenUpdate(db[..n], i, e);
    }
  }

  lemma AddEntryFlatten(db: PersonMap, name: Name, e: FaceEntry)
    ensures multiset(Flatten(AddEntry(db, name, e))) == multiset(Flatten(db)) + multiset{(name, e.embedding)}
  {
    if name in Keys(db) {
      FlattenUpdate(db, IndexOf(db, name), e);
    } else {
      FlattenSnoc(db, (name, [e]));
      assert Owned(name, [e]) == [(name, e.embedding)];
    }
  }

  lemma ZipSnoc(labels: seq<Name>, embeddings: seq<Embedding>, l: Name, e: Embedding)
    requires |labels| == |embeddings|
    ensures Zip(labels + [l], embeddings + [e]) == Zip(labels, embeddings) + [(l, e)]
  {
  }

  /** A successful add appends one entry to the person's list, one embedding
      and one label, and keeps the invariant; a failed add changes nothing. */
  lemma AddFacePreservesInv(s: DbState, name: Name, imagePath: string, embedding: Option<Embedding>)
    requires Inv(s)
    ensures Inv(AddFace(s, name, imagePath, embedding))
  {
    if embedding.Some? {
      var e := FaceEntry(embedding.value, imagePath);
      var t := AddFace(s, name, imagePath, embedding);
      AddEntryFlatten(s.faceDatabase, name, e);
      ZipSnoc(s.labels, s.embeddings, name, embedding.value);
      calc {
        multiset(Zip(t.labels, t.embeddings));
        multiset(Zip(s.labels, s.embeddings) + [(name, e.embedding)]);
        multiset(Zip(s.labels, s.embeddings)) + multiset{(name, e.embedding)};
        multiset(Flatten(s.faceDatabase)) + multiset{(name, e.embedding)};
        multiset(Flatten(t.faceDatabase));
      }
    }
  }

  /** What one add does to the person's entry list: a new name becomes a key
      with exactly one entry, a known name gets one more entry at the end. */
  lemma AddFaceEntries(s: DbState, name: Name, imagePath: string, e: Embedding)
    ensures var t := AddFace(s, name, imagePath, Some(e));
      && t.embeddings == s.embeddings + [e]
      && t.labels == s.labels + [name]
      && Lookup(t.faceDatabase, name) == Some(
           if name in Keys(s.faceDatabase) then Lookup(s.faceDatabase, name).value + [FaceEntry(e, imagePath)]
           else [FaceEntry(e, imagePath)])
      && (forall n :: n != name ==> Lookup(t.faceDatabase, n) == Lookup(s.faceDatabase, n))
  {
  }

  /** Adding two batches one after the other is adding their concatenation. */
  lemma {:induction false} AddFacesAppend(s: DbState, a: seq<AddRequest>, b: seq<AddRequest>)
    ensures AddFaces(s, a + b) == AddFaces(AddFaces(s, a), b)
    ensures SuccessLabels(a + b) == SuccessLabels(a) + SuccessLabels(b)
  {
    if b == [] {
      assert a + b == a;
    } else {
      var n := |b| - 1;
      var c := a + b[..n];
      assert (a + b)[..|a + b| - 1] == c;
      assert (a + b)[|a + b| - 1] == b[n];
      AddFacesAppend(s, a, b[..n]);
      assert SuccessLabels(a + b) == SuccessLabels(c) + (if b[n].embedding.Some? then [b[n].name] else []);
      assert SuccessLabels(b) == SuccessLabels(b[..n]) + (if b[n].embedding.Some? then [b[n].name] else []);
    }
  }

  /** A run of adds appends, in order, the embeddings and labels of exactly
      its successful calls. */
  lemma {:induction false} AddFacesLists(s: DbState, adds: seq<AddRequest>)
    ensures AddFaces(s, adds).labels == s.labels + SuccessLabels(adds)
    ensures AddFaces(s, adds).embeddings == s.embeddings + SuccessEmbeddings(adds)
  {
    if adds != [] {
      var n := |adds| - 1;
      var a := adds[n];
      AddFacesLists(s, adds[..n]);
      var u := AddFaces(s, adds[..n]);
      if a.embedding.Some? {
        assert AddFaces(s, adds).labels == u.labels + [a.name];
        assert AddFaces(s, adds).embeddings == u.embeddings + [a.embedding.value];
        assert SuccessLabels(adds) == SuccessLabels(adds[..n]) + [a.name];
        assert SuccessEmbeddings(adds) == SuccessEmbeddings(adds[..n]) + [a.embedding.value];
      } else {
        assert AddFaces(s, adds) == u;
        assert SuccessLabels(adds) == SuccessLabels(adds[..n]);
        assert SuccessEmbeddings(adds) == SuccessEmbeddings(adds[..n]);
      }
    }
  }

  /** A run of adds keeps the invariant and appends, in order, the embeddings
      and labels of exactly its successful calls. */
  lemma {:induction false} AddFacesPreservesInv(s: DbState, adds: seq<AddRequest>)
    requires Inv(s)
    ensures var t := AddFaces(s, adds);
      && Inv(t)
      && t.labels == s.labels + SuccessLabels(adds)
      && t.embeddings == s.embeddings + SuccessEmbeddings(adds)
  {
    AddFacesLists(s, adds);
    AddFacesKeepInv(s, adds);
  }

  lemma {:induction false} AddFacesKeepInv(s: DbState, adds: seq<AddRequest>)
    requires Inv(s)
    ensures Inv(AddFaces(s, adds))
  {
    if adds != [] {
      var n := |adds| - 1;
      var a := adds[n];
      AddFacesKeepInv(s, adds[..n]);
      AddFacePreservesInv(AddFaces(s, adds[..n]), a.name, a.imagePath, a.embedding);
    }
  }

  /** A run in which every call fails leaves the database as it was. */
  lemma {:induction false} AddFacesWithoutSuccess(s: DbState, adds: seq<AddRequest>)
    requires SuccessLabels(adds) == []
    ensures AddFaces(s, adds) == s
  {
    if adds != [] {
      var n := |adds| - 1;
      assert SuccessLabels(adds[..n]) == [] && adds[n].embedding.None?;
      AddFacesWithoutSuccess(s, adds[..n]);
    }
  }

  lemma {:induction false} FlattenLength(db: seq<Person>)
    ensures |Flatten(db)| == TotalFaces(db)
  {
    if db != [] {
      FlattenLength(db[..|db| - 1]);
    }
  }

  /** Every pair of the walk belongs to a person of the dict. */
  lemma {:induction false} FlattenOwned(db: seq<Person>, j: nat)
    requires j < |Flatten(db)|
    ensures exists i, k :: (0 <= i < |db| && 0 <= k < |db[i].1|
      && db[i].0 == Flatten(db)[j].0 && db[i].1[k].embedding == Flatten(db)[j].1)
  {
    var n := |db| - 1;
    var pre := Flatten(db[..n]);
    if j < |pre| {
      FlattenOwned(db[..n], j);
      var i, k :| 0 <= i < n && 0 <= k < |db[..n][i].1|
        && db[..n][i].0 == pre[j].0 && db[..n][i].1[k].embedding == pre[j].1;
      assert db[i] == db[..n][i];
    } else {
      assert Flatten(db)[j] == Owned(db[n].0, db[n].1)[j - |pre|];
    }
  }

  /** What the invariant promises the resolver and the integrity check: the
      counts agree, and every label owns the embedding stored beside it. */
  lemma InvConsequences(s: DbState)
    requires Inv(s)
    ensures |s.embeddings| == |s.labels| == TotalFaces(s.faceDatabase)
    ensures forall i :: 0 <= i < |s.labels| ==> s.labels[i] in Keys(s.faceDatabase)
    ensures forall i :: 0 <= i < |s.labels| ==> Owns(s.faceDatabase, s.labels[i], s.embeddings[i])
  {
    var z := Zip(s.labels, s.embeddings);
    var f := Flatten(s.faceDatabase);
    assert |z| == |multiset(z)| == |multiset(f)| == |f|;
    FlattenLength(s.faceDatabase);
    forall i | 0 <= i < |s.labels|
      ensures s.labels[i] in Keys(s.faceDatabase) && Owns(s.faceDatabase, s.labels[i], s.embeddings[i])
    {
      assert z[i] in multiset(z);
      assert z[i] in f;
      var j :| 0 <= j < |f| && f[j] == z[i];
      FlattenOwned(s.faceDatabase, j);
      var p, k :| 0 <= p < |s.faceDatabase| && 0 <= k < |s.faceDatabase[p].1|
        && s.faceDatabase[p].0 == f[j].0 && s.faceDatabase[p].1[k].embedding == f[j].1;
      assert Keys(s.faceDatabase)[p] == s.labels[i];
    }
  }

  lemma ZipOfFlat(db: seq<Person>)
    ensures Zip(FlatLabels(db), FlatEmbeddings(db)) == Flatten(db)
  {
  }

  /** After a successful remove the name is no key and no label, the flat lists
      are the ordered walk of what remains, every other person's entries are
      unchanged, and the invariant holds again. */
  lemma RemovePersonSpec(s: DbState, name: Name)
    requires name in Keys(s.faceDatabase)
    ensures var t := RemovePerson(s, name).1;
      && Inv(t)
      && name !in Keys(t.faceDatabase)
      && name !in t.labels
      && (forall n :: n != name ==> Lookup(t.faceDatabase, n) == Lookup(s.faceDatabase, n))
      && Zip(t.labels, t.embeddings) == Flatten(t.faceDatabase)
  {
    var t := RemovePerson(s, name).1;
    ZipOfFlat(t.faceDatabase);
    InvConsequences(t);
  }

  /** Removing twice is removing once: the second call reports False and
      changes nothing. */
  lemma RemovePersonIdempotent(s: DbState, name: Name)
    ensures var t := RemovePerson(s, name).1;
      RemovePerson(t, name) == (false, t)
  {
    if name in Keys(s.faceDatabase) {
      RemovePersonSpec(s, name);
    }
  }
}
