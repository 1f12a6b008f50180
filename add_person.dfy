/** `PersonAdder` and `main` of the enrolment script (src/add_person.py): the
    validation and cleaning of the name given on the command line, the
    per-person sample counts it prints, and the key-driven webcam session in
    which 'c' captures a photo, 's' adds the captured photos to the database
    and 'q' or ESC cancels. The camera, the window, the clock and the face
    model are inputs: each pass of the session loop is an event, and what
    adding a saved photo yields is a function of its path. */
module AddPerson {
  import opened Wrappers
  import opened Text
  import opened Names
  import opened FaceDb
  import opened FaceRecognizer
  import opened DatabaseManager

  // ---- The name check of `main` ---------------------------------------------

  /** The status `main` returns when it gives up. */
  const ExitFailure: int := 1

  datatype NameCheck = Accepted(name: Name) | Rejected(exitCode: int)

  /** The check as `main` performs it: the raw argument is rejected only when
      it is blank, and the name used from then on is the cleaned argument. */
  function ValidateNameAsWritten(raw: string): (r: NameCheck)
    ensures r.Rejected? <==> Strip(raw) == []
    ensures r.Rejected? ==> r.exitCode == ExitFailure
    ensures r.Accepted? ==> r.name == CleanName(raw)
  {
    if Strip(raw) == [] then Rejected(ExitFailure) else Accepted(CleanName(raw))
  }

  /** The check as evidently intended, and as the interactive menu performs it:
      a name is rejected as well when nothing is left of it after cleaning. An
      accepted name is non-empty, made of kept characters only and has no
      space at either end. */
  function ValidateName(raw: string): (r: NameCheck)
    ensures r.Accepted? <==> CleanName(raw) != []
    ensures r.Accepted? ==> r.name == CleanName(raw) && r.name != []
    ensures r.Accepted? ==> forall i :: 0 <= i < |r.name| ==> KeepNameChar(r.name[i])
    ensures r.Accepted? ==> r.name[0] != ' ' && r.name[|r.name| - 1] != ' '
    ensures r.Rejected? ==> r.exitCode == ExitFailure
  {
    CleanNameOfStripped(raw);
    assert Strip(raw) == [] ==> CleanName(Strip(raw)) == [];
    if Strip(raw) == [] || CleanName(raw) == [] then Rejected(ExitFailure) else Accepted(CleanName(raw))
  }

  /** The check as written lets a name through that has no character left
      after cleaning: "!!!" is accepted and becomes the empty name. */
  lemma ValidateNameAsWrittenAcceptsSymbols()
    ensures ValidateNameAsWritten("!!!") == Accepted("")
    ensures ValidateName("!!!") == Rejected(ExitFailure)
  {
    assert KeepNameChars("!!!") == [] by {
      assert !KeepNameChar('!');
      assert KeepNameChars("!!!") == KeepNameChars("!!");
      assert KeepNameChars("!!") == KeepNameChars("!");
      assert KeepNameChars("!") == KeepNameChars("");
    }
    assert CleanName("!!!") == [];
    assert !IsSpace('!');
    assert Strip("!!!") != [];
  }

  /** The two checks differ exactly on the inputs that are not blank but lose
      every character to cleaning; elsewhere they agree. */
  lemma ValidationsDisagreeOnlyOnSymbols(raw: string)
    ensures ValidateNameAsWritten(raw) != ValidateName(raw) <==> Strip(raw) != [] && CleanName(raw) == []
  {
    if Strip(raw) == [] {
      BlankCleansToNothing(raw);
      assert ValidateNameAsWritten(raw) == Rejected(ExitFailure);
      assert ValidateName(raw) == Rejected(ExitFailure);
    } else if CleanName(raw) == [] {
      assert ValidateNameAsWritten(raw).Accepted?;
      assert ValidateName(raw).Rejected?;
    } else {
      assert ValidateNameAsWritten(raw) == Accepted(CleanName(raw));
      assert ValidateName(raw) == Accepted(CleanName(raw));
    }
  }

  /** A blank argument cleans to nothing. */
  lemma BlankCleansToNothing(raw: string)
    requires Strip(raw) == []
    ensures CleanName(raw) == []
  {
    CleanNameOfStripped(raw);
    assert KeepNameChars([]) == [];
  }

  // ---- `show_database_stats` ------------------------------------------------

  /** Python's `a < b` on strings: lexicographic by code point, a proper
      prefix coming first. */
  predicate Before(a: string, b: string)
    decreases |a|
  {
    if a == [] then b != []
    else b != [] && (if a[0] == b[0] then Before(a[1..], b[1..]) else a[0] < b[0])
  }

  lemma {:induction false} BeforeIrreflexive(a: string)
    ensures !Before(a, a)
    decreases |a|
  {
    if a != [] {
      BeforeIrreflexive(a[1..]);
    }
  }

  lemma {:induction false} BeforeTransitive(a: string, b: string, c: string)
    requires Before(a, b) && Before(b, c)
    ensures Before(a, c)
    decreases |a|
  {
    if a != [] && a[0] == b[0] && b[0] == c[0] {
      BeforeTransitive(a[1..], b[1..], c[1..]);
    }
  }

  lemma {:induction false} BeforeTotal(a: string, b: string)
    ensures a == b || Before(a, b) || Before(b, a)
    decreases |a|
  {
    if a != [] && b != [] && a[0] == b[0] {
      BeforeTotal(a[1..], b[1..]);
      assert a == [a[0]] + a[1..] && b == [b[0]] + b[1..];
    }
  }

  /** A list of (name, count) pairs in strictly increasing name order, as
      `sorted(Counter(labels).items())` gives it. */
  predicate SortedByName(t: seq<(Name, nat)>) {
    forall i, j :: 0 <= i < j < |t| ==> Before(t[i].0, t[j].0)
  }

  function NamesOf(t: seq<(Name, nat)>): set<Name> {
    set i | 0 <= i < |t| :: t[i].0
  }

  /** The count listed for `n` (the first pair with that name), 0 if none. */
  function CountOf(t: seq<(Name, nat)>, n: Name): (c: nat)
    ensures n !in NamesOf(t) ==> c == 0
  {
    if t == [] then 0
    else if t[0].0 == n then t[0].1
    else
      assert NamesOf(t[1..]) <= NamesOf(t) by {
        forall m | m in NamesOf(t[1..]) ensures m in NamesOf(t) {
          var i :| 0 <= i < |t[1..]| && t[1..][i].0 == m;
          assert t[i + 1].0 == m;
        }
      }
      CountOf(t[1..], n)
  }

  lemma {:induction false} SumCountsCons(x: (Name, nat), t: seq<(Name, nat)>)
    ensures SumCounts([x] + t) == x.1 + SumCounts(t)
    decreases |t|
  {
    if t != [] {
      var n := |t| - 1;
      assert ([x] + t)[..|t|] == [x] + t[..n];
      SumCountsCons(x, t[..n]);
    }
  }

  lemma NamesOfCons(x: (Name, nat), t: seq<(Name, nat)>)
    ensures NamesOf([x] + t) == {x.0} + NamesOf(t)
  {
    var u := [x] + t;
    forall m | m in NamesOf(u) ensures m in {x.0} + NamesOf(t) {
      var i :| 0 <= i < |u| && u[i].0 == m;
      if i > 0 {
        assert t[i - 1].0 == m;
      }
    }
    forall m | m in NamesOf(t) ensures m in NamesOf(u) {
      var i :| 0 <= i < |t| && t[i].0 == m;
      assert u[i + 1].0 == m;
    }
    assert u[0].0 == x.0;
  }

  /** Prepending a name that comes before every listed name keeps the list
      sorted. */
  lemma SortedCons(x: (Name, nat), t: seq<(Name, nat)>)
    requires SortedByName(t)
    requires forall m :: m in NamesOf(t) ==> Before(x.0, m)
    ensures SortedByName([x] + t)
  {
    var u := [x] + t;
    forall i, j | 0 <= i < j < |u| ensures Before(u[i].0, u[j].0) {
      if i == 0 {
        assert u[j].0 == t[j - 1].0;
        assert t[j - 1].0 in NamesOf(t);
      } else {
        assert u[i] == t[i - 1] && u[j] == t[j - 1];
      }
    }
  }

  /** `Counter.update` with one more occurrence of `n`, on a list sorted by
      name: the count of `n` goes up by one, or `n` is inserted in its place. */
  function Bump(t: seq<(Name, nat)>, n: Name): seq<(Name, nat)> {
    if t == [] then [(n, 1)]
    else if t[0].0 == n then [(n, t[0].1 + 1)] + t[1..]
    else if Before(n, t[0].0) then [(n, 1)] + t
    else [t[0]] + Bump(t[1..], n)
  }

  /** The tail of a sorted list is sorted and lists only names after its head. */
  lemma SortedTail(t: seq<(Name, nat)>)
    requires SortedByName(t) && t != []
    ensures t == [t[0]] + t[1..]
    ensures SortedByName(t[1..])
    ensures forall m :: m in NamesOf(t[1..]) ==> Before(t[0].0, m)
  {
    var rest := t[1..];
    forall i, j | 0 <= i < j < |rest| ensures Before(rest[i].0, rest[j].0) {
      assert rest[i] == t[i + 1] && rest[j] == t[j + 1];
    }
    forall m | m in NamesOf(rest) ensures Before(t[0].0, m) {
      var i :| 0 <= i < |rest| && rest[i].0 == m;
      assert t[i + 1] == rest[i];
    }
  }

  /** Bumping keeps the list sorted, adds `n` to its names, adds one to the
      count of `n` and to no other, adds one to the total and keeps every
      count positive. */
  lemma BumpSpec(t: seq<(Name, nat)>, n: Name)
    requires SortedByName(t)
    ensures var r := Bump(t, n);
      && SortedByName(r)
      && NamesOf(r) == NamesOf(t) + {n}
      && (forall m :: CountOf(r, m) == CountOf(t, m) + (if m == n then 1 else 0))
      && SumCounts(r) == SumCounts(t) + 1
      && ((forall i :: 0 <= i < |t| ==> t[i].1 > 0) ==> forall i :: 0 <= i < |r| ==> r[i].1 > 0)
  {
    BumpSorted(t, n);
    BumpNames(t, n);
    BumpCounts(t, n);
    BumpSum(t, n);
    BumpPositive(t, n);
  }

  /** A name before the head of a sorted list comes before every listed name,
      so it is not listed. */
  lemma BeforeAll(t: seq<(Name, nat)>, n: Name)
    requires SortedByName(t) && t != [] && Before(n, t[0].0)
    ensures forall m :: m in NamesOf(t) ==> Before(n, m)
    ensures n !in NamesOf(t)
  {
    forall m | m in NamesOf(t) ensures Before(n, m) {
      var i :| 0 <= i < |t| && t[i].0 == m;
      if i > 0 {
        BeforeTransitive(n, t[0].0, m);
      }
    }
    BeforeIrreflexive(n);
  }

  lemma {:induction false} BumpNames(t: seq<(Name, nat)>, n: Name)
    ensures NamesOf(Bump(t, n)) == NamesOf(t) + {n}
    decreases |t|
  {
    if t == [] {
      NamesOfCons((n, 1), []);
      assert [(n, 1)] == [(n, 1)] + [];
    } else {
      var rest := t[1..];
      assert t == [t[0]] + rest;
      NamesOfCons(t[0], rest);
      if t[0].0 == n {
        NamesOfCons((n, t[0].1 + 1), rest);
      } else if Before(n, t[0].0) {
        NamesOfCons((n, 1), t);
      } else {
        BumpNames(rest, n);
        NamesOfCons(t[0], Bump(rest, n));
      }
    }
  }

  lemma {:induction false} BumpSorted(t: seq<(Name, nat)>, n: Name)
    requires SortedByName(t)
    ensures SortedByName(Bump(t, n))
    decreases |t|
  {
    if t != [] {
      var rest := t[1..];
      SortedTail(t);
      if t[0].0 == n {
        SortedCons((n, t[0].1 + 1), rest);
      } else if Before(n, t[0].0) {
        BeforeAll(t, n);
        SortedCons((n, 1), t);
      } else {
        BumpSorted(rest, n);
        BumpNames(rest, n);
        BeforeTotal(n, t[0].0);
        SortedCons(t[0], Bump(rest, n));
      }
    }
  }

  lemma {:induction false} BumpCounts(t: seq<(Name, nat)>, n: Name)
    requires SortedByName(t)
    ensures forall m :: CountOf(Bump(t, n), m) == CountOf(t, m) + (if m == n then 1 else 0)
    decreases |t|
  {
    var r := Bump(t, n);
    if t == [] {
      assert r[1..] == [];
    } else {
      var rest := t[1..];
      SortedTail(t);
      if t[0].0 == n {
        assert r[1..] == rest;
      } else if Before(n, t[0].0) {
        BeforeAll(t, n);
        assert r[1..] == t;
      } else {
        BumpCounts(rest, n);
        assert r[1..] == Bump(rest, n);
      }
    }
  }

  lemma {:induction false} BumpSum(t: seq<(Name, nat)>, n: Name)
    ensures SumCounts(Bump(t, n)) == SumCounts(t) + 1
    decreases |t|
  {
    if t == [] {
      assert SumCounts([(n, 1)]) == 1;
    } else {
      var rest := t[1..];
      assert t == [t[0]] + rest;
      SumCountsCons(t[0], rest);
      if t[0].0 == n {
        SumCountsCons((n, t[0].1 + 1), rest);
      } else if Before(n, t[0].0) {
        SumCountsCons((n, 1), t);
      } else {
        BumpSum(rest, n);
        SumCountsCons(t[0], Bump(rest, n));
      }
    }
  }

  lemma {:induction false} BumpPositive(t: seq<(Name, nat)>, n: Name)
    ensures (forall i :: 0 <= i < |t| ==> t[i].1 > 0) ==> forall i :: 0 <= i < |Bump(t, n)| ==> Bump(t, n)[i].1 > 0
    decreases |t|
  {
    var r := Bump(t, n);
    if t != [] && forall i :: 0 <= i < |t| ==> t[i].1 > 0 {
      var rest := t[1..];
      if t[0].0 == n {
        assert forall i :: 0 < i < |r| ==> r[i] == t[i];
      } else if Before(n, t[0].0) {
        assert forall i :: 0 < i < |r| ==> r[i] == t[i - 1];
      } else {
        assert forall i :: 0 <= i < |rest| ==> rest[i] == t[i + 1];
        BumpPositive(rest, n);
        assert forall i :: 0 < i < |r| ==> r[i] == Bump(rest, n)[i - 1];
      }
    }
  }

  /** `sorted(Counter(labels).items())`. */
  function Tally(labels: seq<Name>): seq<(Name, nat)> {
    if labels == [] then [] else Bump(Tally(labels[1..]), labels[0])
  }

  /** The tally is sorted by name, lists exactly the labels that occur, gives
      each its number of occurrences (always positive), and its counts add up
      to the number of labels. */
  lemma {:induction false} TallySpec(labels: seq<Name>)
    ensures var r := Tally(labels);
      && SortedByName(r)
      && NamesOf(r) == (set n | n in labels)
      && (forall m :: CountOf(r, m) == multiset(labels)[m])
      && SumCounts(r) == |labels|
      && forall i :: 0 <= i < |r| ==> r[i].1 > 0
  {
    if labels != [] {
      var rest := labels[1..];
      assert labels == [labels[0]] + rest;
      TallySpec(rest);
      BumpSpec(Tally(rest), labels[0]);
      assert multiset(labels) == multiset(rest) + multiset{labels[0]};
      assert (set n | n in labels) == (set n | n in rest) + {labels[0]};
    }
  }

  /** A list sorted by name lists every name once. */
  lemma {:induction false} SortedNamesAreDistinct(t: seq<(Name, nat)>)
    requires SortedByName(t)
    ensures |NamesOf(t)| == |t|
  {
    if t != [] {
      var rest := t[1..];
      assert t == [t[0]] + rest;
      NamesOfCons(t[0], rest);
      assert SortedByName(rest) by {
        forall i, j | 0 <= i < j < |rest| ensures Before(rest[i].0, rest[j].0) {
          assert rest[i] == t[i + 1] && rest[j] == t[j + 1];
        }
      }
      assert t[0].0 !in NamesOf(rest) by {
        BeforeIrreflexive(t[0].0);
        forall i | 0 <= i < |rest| ensures rest[i].0 != t[0].0 {
          assert Before(t[0].0, t[i + 1].0);
        }
      }
      SortedNamesAreDistinct(rest);
    }
  }

  /** What `show_database_stats` prints. */
  datatype LabelStats = LabelStats(totalPeople: nat, totalSamples: nat, faceCounts: seq<(Name, nat)>)

  /** No statistics for an empty label list ("Database is empty"); otherwise
      the number of distinct labels, the number of labels, and one pair per
      person in name order whose count is that person's number of samples, the
      counts adding up to the number of labels. */
  function ShowDatabaseStats(labels: seq<Name>): (r: Option<LabelStats>)
    ensures r.None? <==> labels == []
    ensures r.Some? ==> r.value.totalPeople == |set n | n in labels| == |r.value.faceCounts|
    ensures r.Some? ==> r.value.totalSamples == |labels| == SumCounts(r.value.faceCounts)
    ensures r.Some? ==> SortedByName(r.value.faceCounts)
    ensures r.Some? ==> NamesOf(r.value.faceCounts) == set n | n in labels
    ensures r.Some? ==> forall m :: CountOf(r.value.faceCounts, m) == multiset(labels)[m]
    ensures r.Some? ==> forall i :: 0 <= i < |r.value.faceCounts| ==> r.value.faceCounts[i].1 > 0
  {
    if labels == [] then None
    else
      var counts := Tally(labels);
      TallySpec(labels);
      SortedNamesAreDistinct(counts);
      Some(LabelStats(|set n | n in labels|, |labels|, counts))
  }

  // ---- The capture session of `add_person_to_database` -----------------------

  /** `ord('c')`, `ord('s')`, `ord('q')` and ESC. */
  const CaptureKey: int := 99
  const SaveKey: int := 115
  const QuitKey: int := 113
  const EscKey: int := 27

  const KnownFacesDir: string := "../data/known_faces"

  /** One pass of the session loop: whether `cap.read()` succeeded, how many
      faces were found in the frame, the raw `waitKey` code and the
      `"%Y%m%d_%H%M%S"` time stamp of that moment. */
  datatype Event = Event(read: bool, facesDetected: nat, key: int, timestamp: string)

  /** `Path(f"../data/known_faces/{person_name}")`. */
  function PersonDir(personName: Name): string {
    if personName == [] then KnownFacesDir else KnownFacesDir + "/" + personName
  }

  /** The path of the n-th photo of a session:
      `person_dir / f"{person_name}_{timestamp}_{n}.jpg"`. */
  function ImagePath(personName: Name, timestamp: string, n: nat): string {
    PersonDir(personName) + "/" + personName + "_" + timestamp + "_" + DecimalString(n) + ".jpg"
  }

  /** Two photos taken within the same second still get different paths,
      because their numbers differ. */
  lemma ImagePathInjective(personName: Name, timestamp: string, n: nat, m: nat)
    requires ImagePath(personName, timestamp, n) == ImagePath(personName, timestamp, m)
    ensures n == m
  {
    var prefix := PersonDir(personName) + "/" + personName + "_" + timestamp + "_";
    var p, q := ImagePath(personName, timestamp, n), ImagePath(personName, timestamp, m);
    assert p == prefix + (DecimalString(n) + ".jpg");
    assert q == prefix + (DecimalString(m) + ".jpg");
    assert |DecimalString(n)| == |DecimalString(m)|;
    assert DecimalString(n) == p[|prefix|..|p| - 4];
    assert DecimalString(m) == q[|prefix|..|q| - 4];
    DecimalStringValue(n);
    DecimalStringValue(m);
  }

  /** Each path paired with what reading and analysing the saved file yields. */
  function Loads(paths: seq<string>, load: string -> ImageLoad): (r: seq<(string, ImageLoad)>)
    ensures |r| == |paths|
    ensures forall k :: 0 <= k < |paths| ==> r[k] == (paths[k], load(paths[k]))
  {
    seq(|paths|, k requires 0 <= k < |paths| => (paths[k], load(paths[k])))
  }

  /** The `add_face_to_database` calls of a save: one per captured path, in
      capture order. */
  function SaveRequests(personName: Name, captured: seq<string>, load: string -> ImageLoad): (r: seq<AddRequest>)
    ensures |r| == |captured|
    ensures forall k :: 0 <= k < |captured| ==> r[k] == AddRequest(personName, captured[k], LoadedEmbedding(load(captured[k])))
  {
    ImageRequests(personName, Loads(captured, load))
  }

  /** The database and the captured paths between two passes of the loop. */
  datatype Session = Session(db: DbState, captured: seq<string>)

  datatype Outcome = Continue(next: Session) | Finished(saved: bool, db: DbState)

  /** One pass of the loop. A failed read, 'q' and ESC end the session with
      False and the database untouched. 'c' captures a photo only when a face
      is in the frame. 's' does nothing without captures; otherwise it adds
      every captured photo and ends with True iff at least one was added,
      else it goes on with the captures kept. Any other key is ignored. The
      database changes only in a session that ends with True. */
  function Step(c: Session, e: Event, personName: Name, load: string -> ImageLoad): (o: Outcome)
    ensures o.Continue? ==> o.next.db == c.db
    ensures o.Finished? && !o.saved ==> o.db == c.db
    ensures o.Finished? && o.saved ==>
      && e.read && e.key % 256 == SaveKey && c.captured != []
      && o.db == AddFaces(c.db, SaveRequests(personName, c.captured, load))
      && SuccessLabels(SaveRequests(personName, c.captured, load)) != []
    ensures o.Continue? && o.next.captured != c.captured ==>
      && e.read && e.key % 256 == CaptureKey && e.facesDetected > 0
      && o.next.captured == c.captured + [ImagePath(personName, e.timestamp, |c.captured| + 1)]
    ensures !e.read || e.key % 256 == QuitKey || e.key % 256 == EscKey ==> o == Finished(false, c.db)
    ensures e.read && e.key % 256 == SaveKey && c.captured == [] ==> o == Continue(c)
    ensures e.read && e.key % 256 == CaptureKey && e.facesDetected > 0 ==>
      o == Continue(Session(c.db, c.captured + [ImagePath(personName, e.timestamp, |c.captured| + 1)]))
    ensures e.read && e.key % 256 == CaptureKey && e.facesDetected == 0 ==> o == Continue(c)
    ensures e.read && e.key % 256 == SaveKey && c.captured != [] ==>
      var adds := SaveRequests(personName, c.captured, load);
      o == if SuccessLabels(adds) != [] then Finished(true, AddFaces(c.db, adds)) else Continue(c)
    ensures e.read && e.key % 256 !in {CaptureKey, SaveKey, QuitKey, EscKey} ==> o == Continue(c)
  {
    var key := e.key % 256;
    if !e.read then Finished(false, c.db)
    else if key == CaptureKey then
      if e.facesDetected > 0 then
        Continue(Session(c.db, c.captured + [ImagePath(personName, e.timestamp, |c.captured| + 1)]))
      else Continue(c)
    else if key == SaveKey then
      if c.captured == [] then Continue(c)
      else
        var adds := SaveRequests(personName, c.captured, load);
        var db := AddFaces(c.db, adds);
        if |SuccessLabels(adds)| > 0 then Finished(true, db)
        else
          AddFacesWithoutSuccess(c.db, adds);
          Continue(Session(db, c.captured))
    else if key == QuitKey || key == EscKey then Finished(false, c.db)
    else Continue(c)
  }

  /** The value a session returns and the database it leaves, over the passes
      of its loop; a session whose events run out ends as if cancelled. */
  function Run(c: Session, events: seq<Event>, personName: Name, load: string -> ImageLoad): (bool, DbState)
    decreases |events|
  {
    if events == [] then (false, c.db)
    else
      match Step(c, events[0], personName, load)
      case Finished(saved, db) => (saved, db)
      case Continue(next) => Run(next, events[1..], personName, load)
  }

  /** The number of faces `main`'s session sees in a frame, as written: it
      counts the results of `recognize_face`, and that method answers with no
      results, before running the detector, while the database has no
      embeddings. */
  function FacesSeenAsWritten(db: DbState, e: Event): (n: nat)
    ensures n <= e.facesDetected
    ensures n == 0 <==> |db.embeddings| == 0 || e.facesDetected == 0
  {
    if |db.embeddings| == 0 then 0 else e.facesDetected
  }

  /** One pass of the loop as written: `Step` with the face count gated on a
      non-empty database. */
  function StepAsWritten(c: Session, e: Event, personName: Name, load: string -> ImageLoad): (o: Outcome)
    ensures |c.db.embeddings| > 0 ==> o == Step(c, e, personName, load)
    ensures |c.db.embeddings| == 0 && c.captured == [] ==> o == Continue(c) || o == Finished(false, c.db)
  {
    Step(c, e.(facesDetected := FacesSeenAsWritten(c.db, e)), personName, load)
  }

  /** `Run` over `StepAsWritten`. */
  function RunAsWritten(c: Session, events: seq<Event>, personName: Name, load: string -> ImageLoad): (bool, DbState)
    decreases |events|
  {
    if events == [] then (false, c.db)
    else
      match StepAsWritten(c, events[0], personName, load)
      case Finished(saved, db) => (saved, db)
      case Continue(next) => RunAsWritten(next, events[1..], personName, load)
  }

  /** As written, a session on a database without embeddings never captures a
      photo, so it never saves: the first person cannot be enrolled. */
  lemma {:induction false} EmptyDatabaseNeverEnrols(c: Session, events: seq<Event>, personName: Name, load: string -> ImageLoad)
    requires |c.db.embeddings| == 0 && c.captured == []
    ensures RunAsWritten(c, events, personName, load) == (false, c.db)
    decreases |events|
  {
    if events != [] {
      match StepAsWritten(c, events[0], personName, load)
      case Finished(_, _) =>
      case Continue(next) => EmptyDatabaseNeverEnrols(next, events[1..], personName, load);
    }
  }

  /** With the face count taken from the detector, the first person is
      enrolled on an empty database: a capture with a face in the frame, then
      a save whose photo yields a face, returns True and leaves that one
      label. */
  lemma FirstPersonCanEnrol(personName: Name, e1: Event, e2: Event, load: string -> ImageLoad)
    requires e1.read && e1.key % 256 == CaptureKey && e1.facesDetected > 0
    requires e2.read && e2.key % 256 == SaveKey
    requires LoadedEmbedding(load(ImagePath(personName, e1.timestamp, 1))).Some?
    ensures var (saved, db) := Run(Session(Empty, []), [e1, e2], personName, load);
      saved && db.labels == [personName] && Inv(db)
  {
    var after := Session(Empty, [ImagePath(personName, e1.timestamp, 1)]);
    assert Step(Session(Empty, []), e1, personName, load) == Continue(after);
    assert [e1, e2][1..] == [e2];
    EmptyInv();
    SaveOneGoodPhoto(after, e2, personName, load);
  }

  /** Saving a single captured photo that yields a face ends the session with
      True and appends the person's label. */
  lemma SaveOneGoodPhoto(c: Session, e: Event, personName: Name, load: string -> ImageLoad)
    requires Inv(c.db) && |c.captured| == 1 && LoadedEmbedding(load(c.captured[0])).Some?
    requires e.read && e.key % 256 == SaveKey
    ensures var o := Step(c, e, personName, load);
      o.Finished? && o.saved && o.db.labels == c.db.labels + [personName] && Inv(o.db)
  {
    var adds := SaveRequests(personName, c.captured, load);
    assert adds == [AddRequest(personName, c.captured[0], LoadedEmbedding(load(c.captured[0])))];
    assert SuccessLabels(adds) == [personName] by {
      assert adds[..0] == [];
    }
    AddFacesPreservesInv(c.db, adds);
  }

  /** A session that does not return True leaves the database as it found it. */
  lemma {:induction false} RunChangesNothingUnlessSaved(c: Session, events: seq<Event>, personName: Name, load: string -> ImageLoad)
    ensures !Run(c, events, personName, load).0 ==> Run(c, events, personName, load).1 == c.db
    decreases |events|
  {
    if events != [] {
      match Step(c, events[0], personName, load)
      case Finished(_, _) =>
      case Continue(next) => RunChangesNothingUnlessSaved(next, events[1..], personName, load);
    }
  }

  /** A session keeps the database invariant, and one that returns True has
      appended at least one label, every one of them the person's name, after
      the labels that were there. */
  lemma {:induction false} SavedRunAddsThePerson(c: Session, events: seq<Event>, personName: Name, load: string -> ImageLoad)
    requires Inv(c.db)
    ensures var (saved, db) := Run(c, events, personName, load);
      && Inv(db)
      && (saved ==>
        && |db.labels| > |c.db.labels|
        && db.labels[..|c.db.labels|] == c.db.labels
        && forall k :: |c.db.labels| <= k < |db.labels| ==> db.labels[k] == personName)
    decreases |events|
  {
    if events != [] {
      match Step(c, events[0], personName, load)
      case Finished(saved, db) =>
        if saved {
          var adds := SaveRequests(personName, c.captured, load);
          AddFacesPreservesInv(c.db, adds);
          ImageRequestsLabels(personName, Loads(c.captured, load));
          assert db.labels == c.db.labels + SuccessLabels(adds);
          assert forall k :: |c.db.labels| <= k < |db.labels| ==> db.labels[k] in SuccessLabels(adds);
        }
      case Continue(next) => SavedRunAddsThePerson(next, events[1..], personName, load);
    }
  }

  class PersonAdder {
    /** The recognizer, loaded from the database file or empty. */
    const recognizer: Recognizer

    constructor (recognizer: Recognizer)
      ensures this.recognizer == recognizer
    {
      this.recognizer := recognizer;
    }

    /** The save loop: one `add_face_to_database` call per captured path,
        counting the calls that succeed. */
    method SaveCaptured(personName: Name, captured: seq<string>, load: string -> ImageLoad) returns (successCount: nat)
      requires recognizer.Valid()
      modifies recognizer
      ensures recognizer.Valid()
      ensures recognizer.State() == AddFaces(old(recognizer.State()), SaveRequests(personName, captured, load))
      ensures successCount == |SuccessLabels(SaveRequests(personName, captured, load))|
    {
      successCount := 0;
      ghost var start := recognizer.State();
      ghost var adds := SaveRequests(personName, captured, load);
      for k := 0 to |captured|
        invariant recognizer.Valid()
        invariant recognizer.State() == AddFaces(start, adds[..k])
        invariant successCount == |SuccessLabels(adds[..k])|
      {
        assert adds[k] == AddRequest(personName, captured[k], LoadedEmbedding(load(captured[k])));
        var ok := recognizer.AddFaceToDatabase(captured[k], personName, load(captured[k]));
        AddFacesPrefixStep(start, adds, k);
        if ok {
          successCount := successCount + 1;
        }
      }
      assert adds[..|captured|] == adds;
    }

    /** `add_person_to_database` over the passes of one session: a camera that
        does not open gives False; otherwise the value returned and the
        database left are those `Run` describes from no captures. */
    method AddPersonToDatabase(personName: Name, cameraOpened: bool, events: seq<Event>, load: string -> ImageLoad)
      returns (ok: bool)
      requires recognizer.Valid()
      modifies recognizer
      ensures recognizer.Valid()
      ensures !cameraOpened ==> !ok && recognizer.State() == old(recognizer.State())
      ensures cameraOpened ==> (ok, recognizer.State()) == Run(Session(old(recognizer.State()), []), events, personName, load)
    {
      if !cameraOpened {
        return false;
      }
      ghost var start := Session(recognizer.State(), []);
      var capturedImages: seq<string> := [];
      var captureCount := 0;
      var i := 0;
      while i < |events|
        invariant recognizer.Valid()
        invariant 0 <= i <= |events|
        invariant captureCount == |capturedImages|
        invariant Run(start, events, personName, load)
               == Run(Session(recognizer.State(), capturedImages), events[i..], personName, load)
      {
        var e := events[i];
        assert events[i..][0] == e && events[i..][1..] == events[i + 1..];
        var key := e.key % 256;
        if !e.read {
          return false;
        }
        if key == CaptureKey {
          if e.facesDetected > 0 {
            var imagePath := ImagePath(personName, e.timestamp, captureCount + 1);
            capturedImages := capturedImages + [imagePath];
            captureCount := captureCount + 1;
          }
        } else if key == SaveKey {
          if capturedImages != [] {
            var successCount := SaveCaptured(personName, capturedImages, load);
            if successCount > 0 {
              return true;
            }
          }
        } else if key == QuitKey || key == EscKey {
          return false;
        }
        i := i + 1;
      }
      return false;
    }
  }
}
