# Face recognition CLI — a verified model of its core

This project models the core of a command-line face recognition system built on
InsightFace embeddings. It covers:

- the in-memory face database: a dictionary from person name to face entries, plus
  two parallel flat lists of embeddings and labels;
- adding faces from images, from a folder tree and from a list of images;
- removing a person;
- recognising faces by nearest embedding against a threshold;
- verifying that two images show the same person;
- the database statistics and integrity check;
- the webcam pipeline of the fast real-time recogniser: two bounded deques, frame
  skipping and decimation, the result filter, the result latch and the overlay
  colours;
- the 100-photo capture session;
- the interactive enrolment session of the add-person script;
- the input checks of the interactive menu.

The detector and embedding model, the camera, the keyboard, the clock and the file
system are not modelled as code. They enter as inputs:

- what loading an image gives: missing, unreadable, or the detected faces;
- what the detector returns, or that it raised;
- a similarity function standing for cosine similarity;
- sequences of loop events: frame read, key code, write outcome;
- sequences of typed lines.

Modules follow the program:

- `Text` holds Python `str` helpers: `strip`, `isalnum`, `lower` and decimal
  formatting.
- `Names` holds the name cleaning shared by three scripts.
- `FaceDb` holds the database state as values, with its invariant and lemmas.
- `FaceRecognizer` holds the class `Recognizer`, which owns the three fields that
  the source updates in place, and the pure matching functions.
- `DatabaseManager` holds the class `Manager`.
- `UltraFastRealtime` holds the class `Pipeline`.
- `PhotoCapture` holds the class `Capturer`.
- `AddPerson` holds the name check, the statistics, the capture/save session and the
  class `PersonAdder`.
- `InteractiveCli` holds the menu's re-prompting input checks.

The dictionary is a sequence of `(name, entries)` pairs with distinct names, kept in
insertion order as a Python `dict` is. The central invariant, `FaceDb.Inv`, says
three things:

- the flat label and embedding lists have equal length;
- as a multiset, the pairs of the two lists are exactly the `(name, embedding)` pairs
  stored in the dictionary;
- every stored entry carries a name key that exists.

Order is not part of the invariant for a reason. An add appends to the flat lists
while the entry goes to the end of its own person's list, so after adds the two
orders differ. After a removal, the rebuilt flat lists follow the dictionary order
exactly.

## Model

| member | source | states |
|---|---|---|
| FaceDb.Lookup | src/face_recognizer.py:121-125 | a name has entries iff it is a key, and the entries are the ones stored under it |
| FaceDb.AddEntry | src/face_recognizer.py:121-128 | adding to an existing name appends to its list; a new name becomes the last key with a one-entry list; every other name keeps its entries |
| FaceDb.RemoveKey | src/database_manager.py:100 | `del`: the name is no longer a key; the key list is the old one with that name cut out, so the other keys keep their order; every other name keeps its entries |
| FaceDb.SuccessLabels | src/database_manager.py:40-46 | the labels an add sequence contributes come only from requests whose image yielded an embedding |
| FaceDb.RemovePerson | src/database_manager.py:95-112 | reports success iff the name is a key; an unknown name leaves the state unchanged |
| FaceDb.Inv | src/face_recognizer.py:121-132 | the invariant every operation keeps: the flat lists have equal length and pair up, as a multiset, with the (name, embedding) pairs of the dictionary |
| FaceDb.AddFace | src/face_recognizer.py:105-135 | one `add_face_to_database` after extraction: no change without an embedding, else the entry under the name and the embedding and label at the end of the flat lists; its properties are `AddFacePreservesInv` and `AddFaceEntries` |
| FaceDb.AddFaces | src/face_recognizer.py:155-162 | a run of adds in call order; its properties are `AddFacesLists`, `AddFacesAppend` and `AddFacesPreservesInv` |
| FaceDb.EmptyInv | src/face_recognizer.py:43-45 | the empty database satisfies the invariant |
| FaceDb.AddFacePreservesInv | src/face_recognizer.py:94-135 | adding one face, or failing to add one, keeps the invariant |
| FaceDb.AddFaceEntries | src/face_recognizer.py:121-132 | a successful add appends exactly one label and one embedding and stores one entry under the name |
| FaceDb.AddFacesAppend | src/database_manager.py:42-44 | adding two request lists in a row is adding their concatenation, and the success labels concatenate |
| FaceDb.AddFacesLists | src/database_manager.py:42-44 | after a sequence of adds, the labels are the old labels followed by the success labels, and likewise for the embeddings |
| FaceDb.AddFacesKeepInv | src/database_manager.py:42-44 | any sequence of adds keeps the invariant |
| FaceDb.AddFacesPreservesInv | src/database_manager.py:42-46 | any sequence of adds keeps the invariant and grows the labels by the success labels |
| FaceDb.AddFacesWithoutSuccess | src/add_person.py:140-161 | a sequence of adds in which no image yields a face changes nothing |
| FaceDb.InvConsequences | src/database_manager.py:151-157 | under the invariant both integrity counts agree, and every label is a key that owns its embedding |
| FaceDb.ZipOfFlat | src/database_manager.py:106-109 | pairing the rebuilt label and embedding lists gives back the dictionary's entries in order |
| FaceDb.RemovePersonSpec | src/database_manager.py:95-112 | after a removal the name is gone from the keys and labels, every other name keeps its entries, the flat lists follow the dictionary order, and the invariant holds |
| FaceDb.RemovePersonIdempotent | src/database_manager.py:95-97 | removing a name a second time reports false and changes nothing |
| FaceRecognizer.Trunc | src/ultra_fast_realtime.py:167-168 | Python `int()` of a float truncates toward zero, for positive and negative values |
| FaceRecognizer.FirstMaxIndex | src/face_recognizer.py:192 | `argmax` gives an index of a maximal value, and no earlier value reaches that maximum |
| FaceRecognizer.LargestFace | src/face_recognizer.py:65 | the face chosen has the largest box area, and it is the first such face |
| FaceRecognizer.ExtractFaceEmbedding | src/face_recognizer.py:59-66 | there is no embedding iff no face was detected; otherwise it is the largest face's embedding |
| FaceRecognizer.LoadedEmbedding | src/face_recognizer.py:105-119 | an image yields an embedding iff it exists, is readable and has a face |
| FaceRecognizer.DetectFaces | src/face_recognizer.py:78-92 | one record per detected face, each with that face's embedding |
| FaceRecognizer.Similarities | src/face_recognizer.py:189-190 | one similarity per stored embedding, against the query |
| FaceRecognizer.BestMatch | src/face_recognizer.py:192 | the index of the first most similar stored embedding |
| FaceRecognizer.Resolve | src/face_recognizer.py:192-200 | the confidence is the best similarity; at or above the threshold the name is that embedding's label, below it the name is "Unknown" |
| FaceRecognizer.ResultFor | src/face_recognizer.py:194-209 | each result carries the resolved name and confidence with the face's box, age and gender |
| FaceRecognizer.ThresholdIsInclusive | src/face_recognizer.py:195-198 | a similarity exactly equal to the threshold is a match |
| FaceRecognizer.TwoPersonScenario | src/face_recognizer.py:192-200 | an identical embedding matches its own person with confidence 1.0; a query below 0.5 against both people is "Unknown" |
| FaceRecognizer.VerifyFaces | src/face_recognizer.py:213-240 | an error iff either image has no face, and then not verified with similarity 0; verified iff similarity is at least 0.5 |
| FaceRecognizer.LastDot | src/face_recognizer.py:160 | finds the last dot of a file name, or reports that there is none |
| FaceRecognizer.Suffix | src/face_recognizer.py:160 | `Path.suffix`: non-empty iff the name has a last dot that is neither its first nor its last character, and then it is the name from that dot on: a dot followed by at least one character and no other dot |
| FaceRecognizer.IsImageFile | src/face_recognizer.py:160 | the lower-cased suffix is one of ".jpg", ".jpeg", ".png", ".bmp"; its cases are `AcceptedSuffixes` and `RejectedSuffixes` |
| FaceRecognizer.AcceptedSuffixes | src/face_recognizer.py:160 | ".JPG" and a second dot are accepted |
| FaceRecognizer.RejectedSuffixes | src/face_recognizer.py:160 | a hidden file ".jpg" and "face.jpg.txt" are not image files |
| FaceRecognizer.FileRequest | src/face_recognizer.py:158-162 | a file gives an add request iff its suffix, lower-cased, is one of the four image extensions |
| FaceRecognizer.FolderRequests | src/face_recognizer.py:157-162 | a folder gives at most one request per file, and a request is among them iff it is the add request, under the folder's name, of one of its image files |
| FaceRecognizer.FolderRequestsStep | src/face_recognizer.py:159-162 | the requests follow file order: one more file appends exactly that file's request |
| FaceRecognizer.TreeRequests | src/face_recognizer.py:155-162 | a request comes from a tree iff it is a request of one of its sub-folders, under that folder's name; plain files add nothing |
| FaceRecognizer.TreeRequestsStep | src/face_recognizer.py:155-157 | the requests follow directory order: one more entry appends its folder's requests, or nothing for a plain file |
| FaceRecognizer.AddFacesSnoc | src/face_recognizer.py:161-162 | one more request is one more single add, and adds its label iff its image yielded an embedding |
| FaceRecognizer.AddFacesPrefixStep | src/face_recognizer.py:161-162 | the k-th add of a run applies to the state left by the first k, and the success count grows by one iff it succeeds |
| FaceRecognizer.SumCountsIsTotalFaces | src/face_recognizer.py:309-320 | the per-person counts add up to the total number of stored faces |
| FaceRecognizer.Recognizer.constructor | src/face_recognizer.py:43-45 | a new recogniser has an empty database |
| FaceRecognizer.Recognizer.AddFaceToDatabase | src/face_recognizer.py:94-135 | returns true iff the image gave a face; the new state is the specification's add, so the invariant is kept |
| FaceRecognizer.Recognizer.LoadFacesFromDirectory | src/face_recognizer.py:137-165 | a missing root adds nothing and returns 0; otherwise, sub-folder by sub-folder, it adds every image file and returns the number of faces added |
| FaceRecognizer.Recognizer.LoadPersonFolder | src/face_recognizer.py:155-162 | one person's folder adds all its image files and counts the successes |
| FaceRecognizer.Recognizer.LoadImageFile | src/face_recognizer.py:160-162 | a non-image file is skipped; an image file is added |
| FaceRecognizer.RecognizeResults | src/face_recognizer.py:167-211 | no results for an empty database, whatever the detector does; otherwise none iff the detector raised, and else one resolved result per detected face in detection order; every name is a known label or "Unknown" |
| FaceRecognizer.Recognizer.RecognizeFace | src/face_recognizer.py:167-211 | the loop's answer is the one `RecognizeResults` states on the current state, with the failure outcome exactly when that is none |
| FaceRecognizer.Recognizer.GetDatabaseStats | src/face_recognizer.py:309-320 | people, faces, and each person's face count in dictionary order, with counts summing to the total |
| DatabaseManager.ZipInjective | src/database_manager.py:103-109 | equal pairings come from equal label and embedding lists |
| DatabaseManager.ImageRequests | src/database_manager.py:42-43 | one add request per image path, under the given name |
| DatabaseManager.ImageRequestsLabels | src/database_manager.py:42-44 | every label added from a list of images is the given person's name |
| DatabaseManager.RebuildIsRemove | src/database_manager.py:100-112 | deleting the key and then rebuilding both lists from the remaining entries is exactly the specification's removal, and keeps the invariant |
| DatabaseManager.Manager.constructor | src/database_manager.py:25-27 | a new manager owns a new, empty recogniser |
| DatabaseManager.Manager.RemovePerson | src/database_manager.py:95-112 | the result and the new state are those of the specification's removal: false and unchanged for an unknown name; a removal leaves the invariant holding whatever the state before, and a state that held it still holds it |
| DatabaseManager.Manager.AppendPersonFaces | src/database_manager.py:107-109 | appends one label and one embedding per face of the person, in order, without touching the dictionary |
| DatabaseManager.Manager.VerifyDatabaseIntegrity | src/database_manager.py:144-176 | reports each count mismatch exactly when it occurs; true iff there is no issue; a state satisfying the invariant always passes |
| DatabaseManager.Manager.AddPersonFromImages | src/database_manager.py:29-46 | adds every image under the person's name and returns the number added; the old labels are kept as a prefix and every new label is the person |
| UltraFastRealtime.Resize | src/ultra_fast_realtime.py:114 | the resized frame is the same capture at the new size |
| UltraFastRealtime.DequeAppend | src/ultra_fast_realtime.py:36-37 | `deque(maxlen)`: appending to a full deque drops the oldest element; the new element is always last |
| UltraFastRealtime.Offer | src/ultra_fast_realtime.py:115-116 | a frame joins the processing queue only while it holds fewer than two frames; the queue never exceeds two |
| UltraFastRealtime.OfferKeepsOldest | src/ultra_fast_realtime.py:115-116 | offering three frames keeps the first two |
| UltraFastRealtime.GoodResults | src/ultra_fast_realtime.py:49 | a result is kept iff its name is known or its confidence is above 0.15, in order |
| UltraFastRealtime.GoodResultsConcat | src/ultra_fast_realtime.py:49 | the filter distributes over concatenation |
| UltraFastRealtime.GoodResultsKeepsNamed | src/ultra_fast_realtime.py:49 | results whose names are all known pass unchanged |
| UltraFastRealtime.Scale | src/ultra_fast_realtime.py:165-168 | `int(v * (size / base))`; `ScaleRoundsDown` states how it rounds |
| UltraFastRealtime.ScaleBox | src/ultra_fast_realtime.py:164-168 | at the 320×240 processing size a box is unchanged |
| UltraFastRealtime.ScaleRoundsDown | src/ultra_fast_realtime.py:165-168 | a scaled coordinate is the exact scaled value rounded down |
| UltraFastRealtime.ColorFor | src/ultra_fast_realtime.py:171-174 | red iff "Unknown"; yellow iff another name lower-cases to "trump"; otherwise green |
| UltraFastRealtime.ColorExamples | src/ultra_fast_realtime.py:171-174 | "unknown" is not the unknown marker (green); "Trump" and "TRUMP" are yellow |
| UltraFastRealtime.Latch | src/ultra_fast_realtime.py:119-122 | the last results change only to a newest non-empty published list; results once shown never become empty |
| UltraFastRealtime.DecimationBound | src/ultra_fast_realtime.py:105-116 | half of the camera frames pass the skip gate, and one in eight of those is offered for processing |
| UltraFastRealtime.DrawnOverlays | src/ultra_fast_realtime.py:159-182 | one overlay per result, with the scaled box, the colour for the name, and a caption only for known names |
| UltraFastRealtime.Pipeline.constructor | src/ultra_fast_realtime.py:25-39 | empty queues, processing switched on |
| UltraFastRealtime.Pipeline.WorkerStep | src/ultra_fast_realtime.py:41-64 | stops when processing is off, idles on an empty queue, otherwise takes the oldest frame and replaces the results queue by the filtered results; a detector error publishes nothing |
| UltraFastRealtime.Pipeline.CaptureStep | src/ultra_fast_realtime.py:100-135 | a failed read ends the loop; every other camera frame is dropped; every eighth frame that passes is offered; 'q' ends the loop before the counter advances |
| UltraFastRealtime.Pipeline.OfferFrame | src/ultra_fast_realtime.py:112-116 | the queue becomes the offered queue, and nothing else changes |
| UltraFastRealtime.Pipeline.LatchResults | src/ultra_fast_realtime.py:118-122 | the last results become the latch of the results queue |
| UltraFastRealtime.Pipeline.DrawResultsFast | src/ultra_fast_realtime.py:155-182 | the overlays drawn are the specification's overlays for the results |
| UltraFastRealtime.Pipeline.Stop | src/ultra_fast_realtime.py:147-150 | processing is switched off and nothing else changes |
| UltraFastRealtime.Pipeline.ResetSession | src/ultra_fast_realtime.py:92-94 | the frame counter, the skip counter and the last results start from zero |
| UltraFastRealtime.Pipeline.RunTick | src/ultra_fast_realtime.py:100-135 | one scheduled step of the camera loop or the worker keeps the pipeline's invariant |
| UltraFastRealtime.Pipeline.RunWebcamRecognition | src/ultra_fast_realtime.py:66-153 | a camera that does not open changes nothing; otherwise the session ends with processing off, half the camera frames past the skip gate, and at most one in eight of those submitted |
| Names.KeepNameChars | src/photo_capture.py:26 | keeps exactly the alphanumeric, space, '-' and '_' characters, in order |
| Names.KeepNameCharsConcat | src/photo_capture.py:26 | the filter distributes over concatenation |
| Names.CleanName | src/add_person.py:206 | the cleaned name is the filtered input with its padding cut: a contiguous slice of the kept characters with only spaces on either side of it, so it has only kept characters, no space at either end, and no character that was not typed |
| Names.CleanNameIgnoresPadding | src/add_person.py:206 | whitespace around the input does not change the cleaned name |
| Names.CleanNameOfStripped | interactive_cli.py:140-143 | cleaning a stripped line gives the same name as cleaning the raw line |
| Names.SpacesToUnderscores | src/photo_capture.py:27 | every space becomes '_', and every other character is kept |
| Names.PhotoCleanName | src/photo_capture.py:26-27 | the photo name is the cleaned name position by position, with each space turned into '_': no spaces, only alphanumerics, '-' and '_', and the cleaned name's length |
| Text.StripLeft | src/add_person.py:201 | removes exactly the leading whitespace |
| Text.StripRight | src/add_person.py:201 | removes exactly the trailing whitespace |
| Text.Strip | src/add_person.py:201 | a contiguous slice of the input, with only whitespace cut from both ends and no whitespace left at either end |
| Text.StripIgnoresPadding | interactive_cli.py:67 | whitespace around a non-blank string does not change its stripped form |
| Text.Lower | src/ultra_fast_realtime.py:174 | lower-cases character by character, keeping the length |
| Text.DecimalString | src/add_person.py:117 | the decimal numeral of a number: at least one digit, and no leading zero except for 0 itself |
| Text.DecimalStringValue | src/add_person.py:117 | reading the numeral back gives the number |
| Text.DecimalStringLength | src/photo_capture.py:133 | the numeral fits in k digits iff the number is below 10^k |
| Text.ZeroPadded | src/photo_capture.py:133 | `:03d`: digits only, padded with zeros to the width, reading back as the number |
| PhotoCapture.PhotoFileName | src/photo_capture.py:133 | "<name>_", at least three digits spelling the number, ".jpg"; exactly three digits up to 999 |
| PhotoCapture.PhotoFileNameInjective | src/photo_capture.py:133 | different photo numbers give different file names |
| PhotoCapture.FirstPhotoFileName | src/photo_capture.py:133 | the first photo is "<name>_001.jpg" |
| PhotoCapture.FinalCount | src/photo_capture.py:63-113 | the count a session ends with: it stops at the target, at a failed read, at 'q' or ESC, or when events run out, and 'c' adds one on a successful write; `FinalCountBounds` and `CapturesReachTarget` state its bounds |
| PhotoCapture.FinalCountBounds | src/photo_capture.py:63-113 | a session never counts past the target of 100, never loses a photo, and adds at most one photo per event |
| PhotoCapture.CapturesReachTarget | src/photo_capture.py:81-109 | pressing 'c' with successful writes reaches the target after exactly the missing number of presses |
| PhotoCapture.Capturer.constructor | src/photo_capture.py:15-32 | the clean name, a zero count and the target of 100 |
| PhotoCapture.Capturer.CapturePhoto | src/photo_capture.py:125-148 | the next numbered file is written; the count goes up iff the write succeeds; the remaining count is returned |
| PhotoCapture.Capturer.StartCaptureSession | src/photo_capture.py:39-123 | false and no change if the camera does not open; otherwise the count reached is the session's final count, never past the target |
| AddPerson.ValidateNameAsWritten | src/add_person.py:200-209 | rejects with exit code 1 iff the stripped argument is empty, and otherwise uses the cleaned name, even when that is empty |
| AddPerson.ValidateName | src/add_person.py:200-209 | accepts iff the cleaned name is non-empty; the name is then non-empty, made of kept characters only, with no space at either end |
| AddPerson.ValidateNameAsWrittenAcceptsSymbols | src/add_person.py:200-209 | "!!!" is accepted as the empty name as written, and rejected by the corrected check |
| AddPerson.ValidationsDisagreeOnlyOnSymbols | src/add_person.py:200-209 | the two checks differ exactly on arguments that are not blank but clean to nothing |
| AddPerson.BeforeTransitive | src/add_person.py:184 | Python string order is transitive |
| AddPerson.BeforeTotal | src/add_person.py:184 | any two different strings are ordered one way or the other |
| AddPerson.Bump | src/add_person.py:182 | one more occurrence of a name in a name-sorted tally; `BumpSpec` states its meaning |
| AddPerson.BumpSpec | src/add_person.py:182 | counting one more label keeps the table sorted, adds that name, and raises only that name's count by one |
| AddPerson.Tally | src/add_person.py:181-184 | `sorted(Counter(labels).items())`, built label by label; `TallySpec` states its meaning |
| AddPerson.TallySpec | src/add_person.py:181-185 | `sorted(Counter(labels).items())`: sorted by name, names are the distinct labels, each count is the label's multiplicity and positive, and the counts sum to the number of labels |
| AddPerson.SortedNamesAreDistinct | src/add_person.py:184 | a name-sorted table lists each person once |
| AddPerson.ShowDatabaseStats | src/add_person.py:173-187 | empty iff there are no labels; otherwise the people count is the number of distinct labels, the sample count is the number of labels, and the per-person counts are the sorted tally |
| AddPerson.PersonDir | src/add_person.py:47 | the person's folder under `../data/known_faces`; the empty name gives the bare folder |
| AddPerson.ImagePath | src/add_person.py:116-118 | `<folder>/<name>_<timestamp>_<n>.jpg`; `ImagePathInjective` states that numbers tell paths apart |
| AddPerson.ImagePathInjective | src/add_person.py:116-118 | different capture numbers give different image paths |
| AddPerson.Loads | src/add_person.py:140-141 | each captured path paired with what loading it gives |
| AddPerson.SaveRequests | src/add_person.py:140-142 | one add request per captured path, under the person's name, in capture order |
| AddPerson.Step | src/add_person.py:76-167 | a read failure, 'q' or ESC ends without saving and without change; 'c' with a face in the frame appends the next numbered image path, and without one changes nothing; 's' with nothing captured continues; 's' with captures ends with True and the adds applied iff at least one add succeeds, and otherwise continues with the database and the captures as they were; any other key changes nothing; the database changes only in a session that ends with True |
| AddPerson.Run | src/add_person.py:76-171 | the value and database a session ends with over its passes; `RunChangesNothingUnlessSaved` and `SavedRunAddsThePerson` state its meaning |
| AddPerson.FacesSeenAsWritten | src/add_person.py:83-115 | as written, the face count the loop sees is zero whenever the database has no embeddings, because `recognize_face` answers with no results then; otherwise it is the detector's count |
| AddPerson.StepAsWritten | src/add_person.py:83-115 | one pass as written: on a non-empty database it is `Step`; on an empty one with nothing captured it continues unchanged or ends without saving |
| AddPerson.RunAsWritten | src/add_person.py:76-171 | a session over `StepAsWritten` |
| AddPerson.EmptyDatabaseNeverEnrols | src/face_recognizer.py:178-180 | as written, a session started on a database without embeddings returns False and leaves the database unchanged, whatever the events |
| AddPerson.FirstPersonCanEnrol | src/add_person.py:113-163 | with the face count taken from the detector, a capture with a face followed by a save whose photo yields a face enrols the first person on an empty database: True, one label, and the invariant holds |
| AddPerson.RunChangesNothingUnlessSaved | src/add_person.py:165-171 | a session that does not end in a save leaves the database as it was |
| AddPerson.SavedRunAddsThePerson | src/add_person.py:134-159 | a saved session keeps the invariant, keeps the old labels as a prefix, and adds at least one label, all of them the person's name |
| AddPerson.PersonAdder.constructor | src/add_person.py:21-36 | the adder uses the recogniser it is given |
| AddPerson.PersonAdder.SaveCaptured | src/add_person.py:138-146 | the state is the specification's adds of the captured images, and the count is the number that succeeded |
| AddPerson.PersonAdder.AddPersonToDatabase | src/add_person.py:38-171 | false and no change if the camera does not open; otherwise the result and the new state are those of the session run over the events |
| InteractiveCli.FirstAccepted | interactive_cli.py:65-71 | the re-prompting loop answers the first accepted line, every earlier line having been refused, and answers nothing iff every line is refused |
| InteractiveCli.ParseChoice | interactive_cli.py:67-69 | a line is accepted iff, stripped, it is one of "1" to "4", and its value is the number it spells |
| InteractiveCli.GetUserChoice | interactive_cli.py:63-71 | the choice returned is between 1 and 4 |
| InteractiveCli.ChoiceIgnoresBlanks | interactive_cli.py:67 | " 3\n" is choice 3 |
| InteractiveCli.ChoiceRefusesOthers | interactive_cli.py:68-71 | "0", "5" and "1." are refused |
| InteractiveCli.RepromptExample | interactive_cli.py:65-71 | after a refused "9", the typed "2" is taken from the second line |
| InteractiveCli.CheckPersonName | interactive_cli.py:140-150 | empty iff the stripped line is blank; valid iff the cleaned name is non-empty, and then the name is the cleaned name |
| InteractiveCli.AcceptedName | interactive_cli.py:140-146 | the name a line yields when `CheckPersonName` finds it valid, none otherwise |
| InteractiveCli.GetPersonName | interactive_cli.py:139-150 | the name taken is the first non-empty cleaned line; there is none iff every line cleans to nothing |
| InteractiveCli.MenuAgreesWithEnrolment | interactive_cli.py:140-146 | the menu accepts exactly the names the corrected enrolment check accepts, and yields the same cleaned name |
| InteractiveCli.MenuRefusesSymbols | interactive_cli.py:140-148 | "!!!" is refused here as invalid, though the enrolment script accepts it as written |

## Left out

- The InsightFace detector and embedding model are not modelled. What they return is
  an input: the faces in an image, or that the detector raised.
- Cosine similarity and normalisation are not computed. Similarity is a parameter
  `sim`, and the model makes no assumption about its range.
- Floating point is modelled as exact reals. Truncation of box coordinates is
  modelled with `Trunc`.
- The FPS counter, timing and `time.sleep` are left out; they only print.
- Threads are left out. The background worker and the camera loop are interleaved by
  an explicit schedule of ticks, one step at a time, so true concurrency and the
  one-second `join` timeout are not captured.
- The camera, windows and drawing calls are reduced to their results. Reading
  frames, `imshow`, `waitKey` delays, `rectangle` and `putText` are events or
  overlays.
- Saving and loading the database (pickle), the backup, the JSON export, and the
  directory creation are left out: they are file I/O.
- `FaceRecognizer.Recognizer.RecognizeFace`: `recognize_face` has no exception
  handler. An exception from the detector propagates to its caller; the real-time
  worker catches it at ultra_fast_realtime.py:46-62, which `WorkerStep` models as
  publishing nothing. The model gives that case as the failure outcome. Exceptions
  raised anywhere else are not modelled.
- `DatabaseManager.Manager.VerifyDatabaseIntegrity`: the missing-image-file check
  needs the file system, so it is left out. The model reports only the two count
  checks.
- `add_person_from_directory` is left out, because its glob and file-system
  listing are I/O. Its adding loop is the one in `AddPersonFromImages`.
- `load_from_structured_directory` is the same operation as
  `LoadFacesFromDirectory`.
- `list_people`, `save_database` and the printing of statistics are left out;
  they only print or write files.
- The model of `get_database_stats` keeps the counts and leaves out the printing.
- Command-line argument parsing, `main.py`, `demo.py` and the menu rendering are
  left out.
- The real-time and photo scripts' `main` functions only wire up the classes, so
  they are left out.
- `isalnum` is ASCII only. Python also accepts other Unicode letters and digits.
- Case folding is ASCII only (`lower`).
- `AddPerson.Step`: add_person.py line 83 calls `recognize_face` with the keyword
  `confidence_threshold`, but the method's parameter is `threshold`, so as written
  each pass raises `TypeError`; the model leaves that out. `Step` takes the number
  of faces in each frame as the detector's count, independent of the database.
  As written that count is zero on an empty database (see Findings); that version
  is `StepAsWritten`.
- Timestamps from the clock are inputs, one per event.
- `AddPerson.PersonDir`: path normalisation by `pathlib` is modelled only for the
  empty name, which gives the bare folder.
- Writing a captured frame is not modelled: its result is ignored, as in the
  source. Whether the saved file later loads is given by the `load` input. Writing
  the database after a save is left out.
- `KeyboardInterrupt` and end-of-input in the menu are left out. A finite list of
  typed lines stands for the terminal, and running out of lines gives no answer.
- `UltraFastRealtime.Pipeline.RunWebcamRecognition`: the end of the finite schedule
  stands for the end of the camera stream.
- The rest of the interactive menu (options 1, 3 and 4) only calls the scripts
  modelled above, or prints. Only its input checks are modelled.

## Findings

| source | as written | input that shows it | evidently intended | confidence | as-written member | corrected member |
|---|---|---|---|---|---|---|
| src/add_person.py:200-209 | the name is checked for blankness before cleaning, then cleaned without a second check | the argument "!!!" passes the blank check and is cleaned to the empty name, which is accepted; the session then opens on the bare folder `../data/known_faces` (add_person.py:47-48) | reject a name that is empty after cleaning, as the interactive menu does at interactive_cli.py:140-148 | not executed | AddPerson.ValidateNameAsWrittenAcceptsSymbols | AddPerson.ValidateName |
| src/add_person.py:83-115 | whether 'c' may capture is decided by the number of results of `recognize_face`, which returns no results without running the detector while the database has no embeddings (face_recognizer.py:178-180) | on an empty database, a frame with a face followed by 'c' and then 's' captures nothing and saves nothing, so the first person can never be enrolled (this assumes the keyword at line 83 is corrected, since as written that call raises) | decide on the faces the detector finds, whatever the database holds, as the "READY TO CAPTURE" and "No face detected" messages say | not executed | AddPerson.EmptyDatabaseNeverEnrols | AddPerson.FirstPersonCanEnrol |
