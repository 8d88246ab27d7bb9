/**
  The session bookkeeping of app_enginex.py: the order of the model list,
  the default model, the extension dispatch of `process_uploaded_file`, and
  the set of upload names already sent to the model in this session.
 */
module Session {
  import opened Strings
  import ChatStore

  // ----- model list -----

  predicate IsPro(name: string) {
    Contains(name, "pro")
  }

  /** The names on one side of the `'pro' in name` test, in their order. */
  function FilterPro(names: seq<string>, pro: bool): (r: seq<string>)
    ensures |r| <= |names|
    ensures forall k :: 0 <= k < |r| ==> IsPro(r[k]) == pro
    decreases |names|
  {
    if |names| == 0 then []
    else
      var rest := FilterPro(names[..|names| - 1], pro);
      if IsPro(names[|names| - 1]) == pro then rest + [names[|names| - 1]] else rest
  }

  /** `model_list.sort(key=lambda x: 'pro' not in x)`: a stable sort on a
      boolean key, where False (a "pro" name) sorts first. */
  function SortProFirst(names: seq<string>): seq<string> {
    FilterPro(names, true) + FilterPro(names, false)
  }

  /** No "pro" name comes after a name without "pro". */
  predicate ProBlockFirst(s: seq<string>) {
    forall i, j :: 0 <= i < j < |s| && IsPro(s[j]) ==> IsPro(s[i])
  }

  lemma {:induction false} FilterProMultiset(names: seq<string>)
    ensures multiset(FilterPro(names, true)) + multiset(FilterPro(names, false)) == multiset(names)
    decreases |names|
  {
    if |names| > 0 {
      var init := names[..|names| - 1];
      FilterProMultiset(init);
      assert names == init + [names[|names| - 1]];
    }
  }

  /** The sorted list is a permutation of the models, every "pro" name comes
      first, and each group keeps its original order. */
  lemma SortProFirstSpec(names: seq<string>)
    ensures multiset(SortProFirst(names)) == multiset(names)
    ensures ProBlockFirst(SortProFirst(names))
    ensures FilterPro(SortProFirst(names), true) == FilterPro(names, true)
    ensures FilterPro(SortProFirst(names), false) == FilterPro(names, false)
  {
    FilterProMultiset(names);
    var a := FilterPro(names, true);
    var b := FilterPro(names, false);
    FilterProConcat(a, b, true);
    FilterProConcat(a, b, false);
    FilterProAll(a, true);
    FilterProAll(b, false);
    FilterProNone(a, false);
    FilterProNone(b, true);
  }

  lemma {:induction false} FilterProConcat(a: seq<string>, b: seq<string>, pro: bool)
    ensures FilterPro(a + b, pro) == FilterPro(a, pro) + FilterPro(b, pro)
    decreases |b|
  {
    if |b| == 0 {
      assert a + b == a;
    } else {
      var b' := b[..|b| - 1];
      assert (a + b)[..|a + b| - 1] == a + b';
      assert (a + b)[|a + b| - 1] == b[|b| - 1];
      FilterProConcat(a, b', pro);
    }
  }

  lemma {:induction false} FilterProAll(s: seq<string>, pro: bool)
    requires forall k :: 0 <= k < |s| ==> IsPro(s[k]) == pro
    ensures FilterPro(s, pro) == s
    decreases |s|
  {
    if |s| > 0 {
      FilterProAll(s[..|s| - 1], pro);
    }
  }

  lemma {:induction false} FilterProNone(s: seq<string>, pro: bool)
    requires forall k :: 0 <= k < |s| ==> IsPro(s[k]) != pro
    ensures FilterPro(s, pro) == []
    decreases |s|
  {
    if |s| > 0 {
      FilterProNone(s[..|s| - 1], pro);
    }
  }

  /** A list with its "pro" block first is its "pro" names followed by its
      other names. */
  lemma {:induction false} BlockSplit(s: seq<string>)
    requires ProBlockFirst(s)
    ensures s == FilterPro(s, true) + FilterPro(s, false)
    decreases |s|
  {
    if |s| > 0 {
      var init := s[..|s| - 1];
      var last := s[|s| - 1];
      BlockSplit(init);
      if IsPro(last) {
        FilterProNone(init, false);
        FilterProAll(init, true);
      }
    }
  }

  /** The stable order is unique: any list with the "pro" block first that
      keeps the order within each group is exactly `SortProFirst`. */
  lemma StableOrderUnique(names: seq<string>, s: seq<string>)
    requires ProBlockFirst(s)
    requires FilterPro(s, true) == FilterPro(names, true)
    requires FilterPro(s, false) == FilterPro(names, false)
    ensures s == SortProFirst(names)
  {
    BlockSplit(s);
  }

  /** The default selection: the index of the first name holding "flash",
      or 0 when none does. */
  method DefaultModelIndex(models: seq<string>) returns (idx: nat)
    ensures |models| > 0 ==> idx < |models|
    ensures (exists i :: 0 <= i < |models| && Contains(models[i], "flash")) ==>
              idx < |models| && Contains(models[idx], "flash")
    ensures forall i :: 0 <= i < idx && i < |models| ==> !Contains(models[i], "flash")
    ensures (forall i :: 0 <= i < |models| ==> !Contains(models[i], "flash")) ==> idx == 0
  {
    idx := 0;
    var i := 0;
    while i < |models|
      invariant 0 <= i <= |models|
      invariant forall j :: 0 <= j < i ==> !Contains(models[j], "flash")
    {
      if Contains(models[i], "flash") {
        idx := i;
        return;
      }
      i := i + 1;
    }
  }

  // ----- extension dispatch -----

  /** `uploaded_file.name.split('.')[-1].lower()`. */
  function FileType(name: string): string {
    var parts := Split(name, '.');
    Lower(parts[|parts| - 1])
  }

  /** What a reader library did with the file: produced its content, or
      raised an exception with that message. The readers themselves are not
      modelled. */
  datatype ReadResult = Read(content: string) | Raised(message: string)

  /** The `(ftype, fcontent)` pair `process_uploaded_file` returns. */
  datatype Outcome = Image(image: string) | Text(text: string) | Error(message: string)

  const ImageTypes := ["png", "jpg", "jpeg"]
  const TextTypes := ["pdf", "docx", "xlsx", "pptx", "kml", "geojson", "kmz", "zip"]
  const BinaryMessage := "⚠️ Format Biner (DWG/SHP) tidak bisa dibaca langsung. Convert ke PDF/KML dulu."
  const UnsupportedMessage := "Format tidak didukung."

  /** `process_uploaded_file` for a file with that name, given what its
      reader does. */
  function ProcessUploadedFile(name: string, reader: ReadResult): (out: Outcome)
    ensures out.Image? ==> FileType(name) in ImageTypes && reader == Read(out.image)
    ensures out.Text? ==> FileType(name) in TextTypes && reader == Read(out.text)
    ensures out.Error? <==> !(FileType(name) in ImageTypes + TextTypes && reader.Read?)
    ensures out.Error? && FileType(name) in ImageTypes + TextTypes ==> out.message == "Gagal baca: " + reader.message
  {
    var ext := FileType(name);
    if ext in ImageTypes || ext in TextTypes then
      match reader
      case Raised(msg) => Error("Gagal baca: " + msg)
      case Read(content) => if ext in ImageTypes then Image(content) else Text(content)
    else if ext in ["dwg", "shp"] then Error(BinaryMessage)
    else Error(UnsupportedMessage)
  }

  /** The type is the text after the last dot, lower-cased: the stem does not
      matter, and the test is case-insensitive. */
  lemma FileTypeOfName(stem: string, ext: string)
    requires '.' !in ext
    ensures FileType(stem + "." + ext) == Lower(ext)
  {
    SplitLast(stem, '.', ext);
  }

  /** A file of a type that is not read is refused whatever its content:
      DWG and SHP with the binary-format message, anything else as
      unsupported. */
  lemma UnreadTypesIgnoreContent(name: string, r1: ReadResult, r2: ReadResult)
    requires FileType(name) !in ImageTypes + TextTypes
    ensures ProcessUploadedFile(name, r1) == ProcessUploadedFile(name, r2)
    ensures ProcessUploadedFile(name, r1) == Error(if FileType(name) in ["dwg", "shp"] then BinaryMessage else UnsupportedMessage)
  {
  }

  lemma LowerIdempotent(s: string)
    ensures Lower(Lower(s)) == Lower(s)
  {
  }

  /** The dispatch sees only the lower-cased extension: `Plan.PDF` is handled
      exactly like `x.pdf`, whatever the stem. */
  lemma DispatchByLowerExtension(stem: string, ext: string, reader: ReadResult)
    requires '.' !in ext
    ensures ProcessUploadedFile(stem + "." + ext, reader) == ProcessUploadedFile("x." + Lower(ext), reader)
  {
    FileTypeOfName(stem, ext);
    assert '.' !in Lower(ext) by {
      forall k | 0 <= k < |ext| ensures Lower(ext)[k] != '.' {
        assert ext[k] != '.';
      }
    }
    FileTypeOfName("x", Lower(ext));
    LowerIdempotent(ext);
  }

  // ----- processed uploads -----

  /** An upload: its file name and what reading it yields. */
  datatype Upload = Upload(name: string, reader: ReadResult)

  /** What the upload loop has built so far: the names processed in this
      session, the prompt with file texts appended, the images to send, and
      the error lines shown. */
  datatype Turn = Turn(processed: set<string>, prompt: string, images: seq<string>, errors: seq<string>)

  /** The block a text upload appends to the prompt. */
  function WrappedText(name: string, content: string): string {
    "\n\n--- [START DATA FILE: " + name + "] ---\n" + content + "\n--- [END DATA FILE] ---\n"
  }

  /** One iteration of the upload loop. */
  function UploadStep(t: Turn, u: Upload): Turn {
    if u.name in t.processed then t
    else
      match ProcessUploadedFile(u.name, u.reader)
      case Image(img) => Turn(t.processed + {u.name}, t.prompt, t.images + [img], t.errors)
      case Text(text) => Turn(t.processed + {u.name}, t.prompt + WrappedText(u.name, text), t.images, t.errors)
      case Error(msg) => Turn(t.processed, t.prompt, t.images, t.errors + ["❌ " + u.name + ": " + msg])
  }

  function UploadsFold(t: Turn, uploads: seq<Upload>): Turn
    decreases |uploads|
  {
    if |uploads| == 0 then t
    else UploadStep(UploadsFold(t, uploads[..|uploads| - 1]), uploads[|uploads| - 1])
  }

  /** Reading this upload succeeds (it is an image or a text). */
  predicate Succeeds(u: Upload) {
    !ProcessUploadedFile(u.name, u.reader).Error?
  }

  /** Some upload with this name succeeds. */
  predicate SomeSuccess(uploads: seq<Upload>, name: string) {
    exists i :: 0 <= i < |uploads| && uploads[i].name == name && Succeeds(uploads[i])
  }

  /** The upload loop of one chat turn: each upload whose name is not yet
      processed is read; images and texts are sent and their names recorded,
      errors are shown and not recorded. */
  method ProcessUploads(processed: set<string>, prompt: string, uploads: seq<Upload>) returns (t: Turn)
    ensures t == UploadsFold(Turn(processed, prompt, [], []), uploads)
    ensures forall n :: n in t.processed <==> n in processed || SomeSuccess(uploads, n)
    ensures (forall i :: 0 <= i < |uploads| ==> uploads[i].name in processed) ==> t == Turn(processed, prompt, [], [])
  {
    t := Turn(processed, prompt, [], []);
    var i := 0;
    while i < |uploads|
      invariant 0 <= i <= |uploads|
      invariant t == UploadsFold(Turn(processed, prompt, [], []), uploads[..i])
    {
      assert uploads[..i + 1][..i] == uploads[..i];
      var u := uploads[i];
      if u.name !in t.processed {
        var outcome := ProcessUploadedFile(u.name, u.reader);
        match outcome
        case Image(img) =>
          t := Turn(t.processed + {u.name}, t.prompt, t.images + [img], t.errors);
        case Text(text) =>
          t := Turn(t.processed + {u.name}, t.prompt + WrappedText(u.name, text), t.images, t.errors);
        case Error(msg) =>
          t := Turn(t.processed, t.prompt, t.images, t.errors + ["❌ " + u.name + ": " + msg]);
      }
      i := i + 1;
    }
    assert uploads[..|uploads|] == uploads;
    ProcessedIff(Turn(processed, prompt, [], []), uploads);
    if forall i :: 0 <= i < |uploads| ==> uploads[i].name in processed {
      AlreadyProcessedIgnored(Turn(processed, prompt, [], []), uploads);
    }
  }

  /** After the loop a name is processed exactly when it was before, or some
      upload with that name was read successfully. An upload that failed is
      not recorded, so it is read again on the next turn. */
  lemma {:induction false} ProcessedIff(t: Turn, uploads: seq<Upload>)
    ensures forall n :: n in UploadsFold(t, uploads).processed <==> n in t.processed || SomeSuccess(uploads, n)
    decreases |uploads|
  {
    if |uploads| > 0 {
      var init := uploads[..|uploads| - 1];
      var u := uploads[|uploads| - 1];
      ProcessedIff(t, init);
      forall n ensures SomeSuccess(uploads, n) <==> SomeSuccess(init, n) || (u.name == n && Succeeds(u)) {
        if SomeSuccess(uploads, n) {
          var i :| 0 <= i < |uploads| && uploads[i].name == n && Succeeds(uploads[i]);
          if i < |init| {
            assert init[i] == uploads[i];
          }
        }
        if SomeSuccess(init, n) {
          var i :| 0 <= i < |init| && init[i].name == n && Succeeds(init[i]);
          assert uploads[i] == init[i];
        }
      }
    }
  }

  /** Uploads whose names are all processed change nothing: no reading, no
      prompt text, no image, no error. */
  lemma {:induction false} AlreadyProcessedIgnored(t: Turn, uploads: seq<Upload>)
    requires forall i :: 0 <= i < |uploads| ==> uploads[i].name in t.processed
    ensures UploadsFold(t, uploads) == t
    decreases |uploads|
  {
    if |uploads| > 0 {
      AlreadyProcessedIgnored(t, uploads[..|uploads| - 1]);
    }
  }

  /** The "Reset" button: clear the chat of this project and gem and forget
      every processed upload. */
  function Reset(db: ChatStore.Store, project: string, gem: string, processed: set<string>): (ChatStore.Store, set<string>) {
    (ChatStore.ClearChat(db, project, gem), {})
  }

  /** After a reset the chat shows nothing and every upload is read again. */
  lemma ResetSpec(db: ChatStore.Store, project: string, gem: string, processed: set<string>, uploads: seq<Upload>)
    ensures ChatStore.GetChatHistory(Reset(db, project, gem, processed).0, project, gem) == []
    ensures forall n :: n in UploadsFold(Turn(Reset(db, project, gem, processed).1, "", [], []), uploads).processed
              <==> SomeSuccess(uploads, n)
  {
    ChatStore.HistoryAfterClear(db, project, gem, project, gem);
    ProcessedIff(Turn({}, "", [], []), uploads);
  }
}
