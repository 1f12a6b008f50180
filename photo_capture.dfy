/** `PhotoCapture` (src/photo_capture.py): the file-name-safe person name, the
    numbered photo file names, the photo counter and the capture session that
    runs until the target count. The camera, the window and `cv2.imwrite` are
    inputs: each pass of the session loop is an event saying whether the read
    succeeded, which key was pressed and whether the write succeeded. */
module PhotoCapture {
  import opened Text
  import opened Names

  const TargetPhotos: nat := 100
  /** `ord('c')`, `ord('q')` and ESC. */
  const CaptureKey: int := 99
  const QuitKey: int := 113
  const EscKey: int := 27

  /** `f"{clean_name}_{n:03d}.jpg"`: the name, an underscore, the number with
      at least three digits, and the extension. */
  function PhotoFileName(cleanName: string, n: nat): (r: string)
    ensures |r| >= |cleanName| + 8
    ensures r[..|cleanName| + 1] == cleanName + "_"
    ensures r[|r| - 4..] == ".jpg"
    ensures AllDigits(r[|cleanName| + 1..|r| - 4]) && DigitsValue(r[|cleanName| + 1..|r| - 4]) == n
    ensures 1 <= n <= 999 ==> |r| == |cleanName| + 8
  {
    var digits := ZeroPadded(n, 3);
    var r := cleanName + "_" + digits + ".jpg";
    assert r[..|cleanName| + 1] == cleanName + "_";
    assert r[|r| - 4..] == ".jpg";
    assert r[|cleanName| + 1..|r| - 4] == digits;
    DecimalStringLength(n, 3);
    r
  }

  /** Different photo numbers give different file names, so a session never
      overwrites its own photos. */
  lemma PhotoFileNameInjective(cleanName: string, n: nat, m: nat)
    requires PhotoFileName(cleanName, n) == PhotoFileName(cleanName, m)
    ensures n == m
  {
    var r := PhotoFileName(cleanName, n);
    assert DigitsValue(r[|cleanName| + 1..|r| - 4]) == n;
  }

  /** The first file of a session is "<clean name>_001.jpg". */
  lemma FirstPhotoFileName(cleanName: string)
    ensures PhotoFileName(cleanName, 1) == cleanName + "_001.jpg"
  {
    assert ZeroPadded(1, 3) == "001" by {
      assert DecimalString(1) == "1";
      assert Zeros(2) == "00";
    }
  }

  /** One pass of the session loop: whether `cap.read()` succeeded, the raw
      `waitKey` code, and whether `cv2.imwrite` would succeed. */
  datatype Event = Event(read: bool, key: int, writeOk: bool)

  /** The photo count a session reaches from `count` over `events`: it stops
      when the count reaches the target, when a read fails, when 'q' or ESC is
      pressed, or when the events run out; 'c' adds one photo if the write
      succeeds. */
  function FinalCount(count: nat, target: nat, events: seq<Event>): nat
    decreases |events|
  {
    if count >= target || events == [] then count
    else
      var e := events[0];
      var key := e.key % 256;
      if !e.read then count
      else if key == CaptureKey then
        var c := count + (if e.writeOk then 1 else 0);
        if c >= target then c else FinalCount(c, target, events[1..])
      else if key == QuitKey || key == EscKey then count
      else FinalCount(count, target, events[1..])
  }

  /** A session never counts past the target, never loses a photo, and adds at
      most one photo per event. */
  lemma {:induction false} FinalCountBounds(count: nat, target: nat, events: seq<Event>)
    requires count <= target
    ensures count <= FinalCount(count, target, events) <= target
    ensures FinalCount(count, target, events) <= count + |events|
    decreases |events|
  {
    if count < target && events != [] {
      var e := events[0];
      var key := e.key % 256;
      if e.read && key == CaptureKey {
        var c := count + (if e.writeOk then 1 else 0);
        if c < target {
          FinalCountBounds(c, target, events[1..]);
        }
      } else if e.read && key != QuitKey && key != EscKey {
        FinalCountBounds(count, target, events[1..]);
      }
    }
  }

  /** Pressing 'c' with every write succeeding reaches the target after exactly
      the missing number of presses. */
  lemma {:induction false} CapturesReachTarget(count: nat, target: nat, events: seq<Event>)
    requires count <= target <= count + |events|
    requires forall i :: 0 <= i < |events| ==> events[i].read && events[i].key % 256 == CaptureKey && events[i].writeOk
    ensures FinalCount(count, target, events) == target
    decreases |events|
  {
    if count < target {
      var c := count + 1;
      if c < target {
        CapturesReachTarget(c, target, events[1..]);
      }
    }
  }

  class Capturer {
    const personName: string
    const cleanName: string
    const targetPhotos: nat
    var photoCount: nat
    /** The files written to the person's folder, in order. */
    var savedFiles: seq<string>

    /** The saved files are exactly the numbered photos 1..photoCount. */
    predicate Valid()
      reads this
    {
      && |savedFiles| == photoCount
      && forall i :: 0 <= i < |savedFiles| ==> savedFiles[i] == PhotoFileName(cleanName, i + 1)
    }

    /** `__init__`: the clean name, a zero count and the target of 100. */
    constructor (personName: string)
      ensures Valid()
      ensures this.personName == personName && cleanName == PhotoCleanName(personName)
      ensures photoCount == 0 && targetPhotos == TargetPhotos && savedFiles == []
    {
      this.personName := personName;
      cleanName := PhotoCleanName(personName);
      targetPhotos := TargetPhotos;
      photoCount := 0;
      savedFiles := [];
    }

    /** `capture_photo`: the next numbered file is written; the count goes up by
        one iff the write succeeded. Also returns how many photos remain. */
    method CapturePhoto(writeOk: bool) returns (filename: string, remaining: int)
      requires Valid()
      modifies this
      ensures Valid()
      ensures filename == PhotoFileName(cleanName, old(photoCount) + 1)
      ensures photoCount == old(photoCount) + (if writeOk then 1 else 0)
      ensures savedFiles == old(savedFiles) + (if writeOk then [filename] else [])
      ensures remaining == targetPhotos - photoCount
    {
      filename := PhotoFileName(cleanName, photoCount + 1);
      if writeOk {
        savedFiles := savedFiles + [filename];
        photoCount := photoCount + 1;
      }
      remaining := targetPhotos - photoCount;
    }

    /** `start_capture_session` over the events of one session: a camera that
        does not open gives False and changes nothing; otherwise the loop runs
        while fewer than the target photos exist, and the count it reaches is
        the one `FinalCount` describes, never past the target. */
    method StartCaptureSession(cameraOpened: bool, events: seq<Event>) returns (ok: bool)
      requires Valid()
      modifies this
      ensures Valid()
      ensures ok == cameraOpened
      ensures !cameraOpened ==> photoCount == old(photoCount)
      ensures cameraOpened ==> photoCount == FinalCount(old(photoCount), targetPhotos, events)
      ensures old(photoCount) <= photoCount
      ensures old(photoCount) <= targetPhotos ==> photoCount <= targetPhotos
    {
      if !cameraOpened {
        return false;
      }
      ghost var start := photoCount;
      var i := 0;
      var running := true;
      while running && photoCount < targetPhotos && i < |events|
        invariant Valid()
        invariant 0 <= i <= |events|
        invariant start <= photoCount
        invariant running ==> FinalCount(start, targetPhotos, events) == FinalCount(photoCount, targetPhotos, events[i..])
        invariant !running ==> FinalCount(start, targetPhotos, events) == photoCount
        decreases |events| - i, running
      {
        var e := events[i];
        assert events[i..][0] == e && events[i..][1..] == events[i + 1..];
        var key := e.key % 256;
        if !e.read {
          running := false;
        } else if key == CaptureKey {
          var _, _ := CapturePhoto(e.writeOk);
          if photoCount >= targetPhotos {
            running := false;
          }
        } else if key == QuitKey || key == EscKey {
          running := false;
        }
        i := i + 1;
      }
      if running {
        assert FinalCount(photoCount, targetPhotos, events[i..]) == photoCount;
      }
      if start <= targetPhotos {
        FinalCountBounds(start, targetPhotos, events);
      }
      return true;
    }
  }
}
