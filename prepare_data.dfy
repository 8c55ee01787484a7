/**
 * The text transformations of `VivosDataProcessor`: from a split's
 * `prompts.txt` manifest (lines `speaker_local TOKEN TOKEN ...`) to the Kaldi
 * files `text`, `wav.scp` and `utt2spk`, and the new name each copied audio
 * file receives.
 */
module PrepareData {
  import opened Wrappers
  import opened Strings
  import opened Sorting

  /** A corpus partition; its name is part of every audio path. */
  datatype Split = Train | Test {
    function Name(): string {
      match this
      case Train => "train"
      case Test => "test"
    }
  }

  /** An utterance, keyed in the corpus as `speaker_local`. */
  datatype Utterance = Utterance(speaker: string, local: string) {
    /** The utterance id used by the Kaldi files: `speaker-local`. */
    function Id(): string {
      speaker + "-" + local
    }

    /** The corpus key: `speaker_local`. */
    function RawKey(): string {
      speaker + "_" + local
    }
  }

  /** Why a line or a file name is refused: the exception the script raises on it. */
  datatype Fault =
    | NoFields                           // `items[0]` of a blank line: IndexError
    | KeyParts(key: string, parts: nat)  // `a, b = key.split("_")` with `parts` pieces: ValueError

  /** The first refused entry, by its position, and why. */
  datatype LineError = LineError(index: nat, fault: Fault)

  // ---------------------------------------------------------------------------
  // Keys
  // ---------------------------------------------------------------------------

  /**
   * `speaker_id, utt_id = key.split("_")`: succeeds exactly when the key holds
   * one underscore, and then the key is `speaker_local` with neither part
   * holding an underscore.
   */
  function ParseKey(key: string): (r: Result<Utterance, Fault>)
    ensures r.Success? <==> multiset(key)['_'] == 1
    ensures r.Success? ==> r.value.RawKey() == key && '_' !in r.value.speaker && '_' !in r.value.local
    ensures r.Failure? ==> r.error == KeyParts(key, multiset(key)['_'] + 1)
  {
    SplitOnCount(key, '_');
    SplitOnPieces(key, '_');
    SplitOnJoinBack(key, '_');
    var parts := SplitOn(key, '_');
    if |parts| != 2 then Failure(KeyParts(key, |parts|))
    else Success(Utterance(parts[0], parts[1]))
  }

  /** Every utterance whose parts hold no underscore parses back from its key. */
  lemma ParseKeyRoundTrip(u: Utterance)
    requires '_' !in u.speaker && '_' !in u.local
    ensures ParseKey(u.RawKey()) == Success(u)
  {
    var parts := [u.speaker, u.local];
    assert Join(parts, ['_']) == u.RawKey();
    SplitOnJoin(parts, '_');
  }

  /** The `text` file's `key.replace("_", "-")` is the utterance id wherever the key parses. */
  lemma ReplacedKeyIsId(key: string)
    requires ParseKey(key).Success?
    ensures ReplaceAll(key, '_', '-') == ParseKey(key).value.Id()
  {
    var u := ParseKey(key).value;
    var id := u.Id();
    forall i | 0 <= i < |key| ensures ReplaceAll(key, '_', '-')[i] == id[i] {
      if i < |u.speaker| {
        assert key[i] == u.speaker[i];
      } else if i > |u.speaker| {
        assert key[i] == u.local[i - |u.speaker| - 1];
      }
    }
  }

  /** The parts of a whitespace-free key are whitespace-free. */
  lemma ParseKeyNoSpace(key: string)
    requires NoSpace(key) && ParseKey(key).Success?
    ensures NoSpace(ParseKey(key).value.speaker) && NoSpace(ParseKey(key).value.local)
  {
    SplitOnNoSpace(key, '_');
  }

  /** A character missing from a key is missing from both of its parts. */
  lemma ParsedPartsAvoid(key: string, c: char)
    requires ParseKey(key).Success? && c !in key
    ensures c !in ParseKey(key).value.speaker && c !in ParseKey(key).value.local
  {
    var u := ParseKey(key).value;
    assert key == u.speaker + "_" + u.local;
  }

  // ---------------------------------------------------------------------------
  // The loop shared by every builder: one record per line, or the first fault
  // ---------------------------------------------------------------------------

  /**
   * The records `f` makes of `items`, in order, or the first item `f`
   * refuses; defined on the prefix so that it follows a left-to-right loop.
   */
  function Collect<T>(items: seq<string>, f: string -> Result<T, Fault>): (r: Result<seq<T>, LineError>)
    ensures r.Success? <==> forall i :: 0 <= i < |items| ==> f(items[i]).Success?
    ensures r.Success? ==> |r.value| == |items| && forall i :: 0 <= i < |items| ==> f(items[i]) == Success(r.value[i])
    ensures r.Failure? ==>
      r.error.index < |items| && f(items[r.error.index]) == Failure(r.error.fault) &&
      forall j :: 0 <= j < r.error.index ==> f(items[j]).Success?
    decreases |items|
  {
    if items == [] then Success([])
    else
      var n := |items| - 1;
      var front := items[..n];
      assert forall i :: 0 <= i < n ==> front[i] == items[i];
      match Collect(front, f)
      case Failure(e) => Failure(e)
      case Success(vs) =>
        match f(items[n])
        case Failure(fault) => Failure(LineError(n, fault))
        case Success(v) => Success(vs + [v])
  }

  /** A loop that has accepted `items[..i]` and is refused at `items[i]` reports the fault of `items[i]`. */
  lemma CollectStops<T>(items: seq<string>, i: nat, f: string -> Result<T, Fault>)
    requires i < |items|
    requires Collect(items[..i], f).Success? && f(items[i]).Failure?
    ensures Collect(items, f) == Failure(LineError(i, f(items[i]).error))
  {
    forall j | 0 <= j < i ensures f(items[j]).Success? {
      assert items[..i][j] == items[j];
    }
    var r := Collect(items, f);
    assert r.Failure?;
    assert r.error.index >= i;
    assert r.error.index <= i;
  }

  /** One more accepted item extends the accepted prefix by its record. */
  lemma CollectStep<T>(items: seq<string>, i: nat, f: string -> Result<T, Fault>, vs: seq<T>)
    requires i < |items|
    requires Collect(items[..i], f) == Success(vs) && f(items[i]).Success?
    ensures Collect(items[..i + 1], f) == Success(vs + [f(items[i]).value])
  {
    assert items[..i + 1][..i] == items[..i];
  }

  // ---------------------------------------------------------------------------
  // One manifest line
  // ---------------------------------------------------------------------------

  /** A `text` line: the key with `_` made `-`, a space, and the lower-cased tokens joined by spaces. */
  function TextLine(line: string): Result<string, Fault> {
    var items := Words(line);
    if items == [] then Failure(NoFields)
    else Success(ReplaceAll(items[0], '_', '-') + " " + Lower(Join(items[1..], " ")))
  }

  /** Where the audio of an utterance is after relocation. */
  function AudioPath(split: Split, u: Utterance): string {
    "./audio/" + split.Name() + "/" + u.speaker + "/" + u.local + ".wav"
  }

  /** `"{0}-{1} ./audio/{2}/{0}/{1}.wav".format(speaker_id, utt_id, sub_dir)`. */
  function WavRecord(split: Split, u: Utterance): string {
    u.Id() + " " + AudioPath(split, u)
  }

  /** `"{0}-{1} {0}".format(speaker_id, utt_id)`. */
  function Utt2SpkRecord(u: Utterance): string {
    u.Id() + " " + u.speaker
  }

  /** A `wav.scp` line: the first field must split into speaker and local id. */
  function WavLine(split: Split, line: string): Result<string, Fault> {
    var items := Words(line);
    if items == [] then Failure(NoFields)
    else
      match ParseKey(items[0])
      case Failure(fault) => Failure(fault)
      case Success(u) => Success(WavRecord(split, u))
  }

  /** `WavLine` for one split, as the function the builder applies to each line. */
  function WavLineOf(split: Split): string -> Result<string, Fault> {
    line => WavLine(split, line)
  }

  /** An `utt2spk` line: the first field must split into speaker and local id. */
  function Utt2SpkLine(line: string): Result<string, Fault> {
    var items := Words(line);
    if items == [] then Failure(NoFields)
    else
      match ParseKey(items[0])
      case Failure(fault) => Failure(fault)
      case Success(u) => Success(Utt2SpkRecord(u))
  }

  lemma NoSpaceConcat(a: string, b: string)
    requires NoSpace(a) && NoSpace(b)
    ensures NoSpace(a + b)
  {
    assert forall i :: 0 <= i < |a| ==> (a + b)[i] == a[i];
    assert forall i :: |a| <= i < |a + b| ==> (a + b)[i] == b[i - |a|];
  }

  /** A field, a space and a field: the two fields read back. */
  lemma WordsOfPair(a: string, b: string)
    requires a != [] && NoSpace(a) && b != [] && NoSpace(b)
    ensures Words(a + " " + b) == [a, b]
    ensures '\n' !in a + " " + b
  {
    assert a + " " + b == a + (" " + b);
    WordsOfWordThen(a, " " + b);
    WordsOfSpaceThen(b);
    WordsOfWordThen(b, "");
    assert b + "" == b;
    assert IsSpace('\n');
  }

  /** A field, a space and single-spaced text: the field, then the words of the text. */
  lemma FieldThenText(id: string, t: string)
    requires id != [] && NoSpace(id) && SingleSpaced(t)
    ensures Words(id + " " + t) == [id] + Words(t)
    ensures '\n' !in id + " " + t
  {
    var rec := id + " " + t;
    assert rec == id + (" " + t);
    WordsOfWordThen(id, " " + t);
    WordsOfSpaceThen(t);
    assert IsSpace('\n');
    forall i | 0 <= i < |rec| ensures rec[i] != '\n' {
      if i > |id| {
        assert rec[i] == t[i - |id| - 1];
      }
    }
  }

  lemma ReplaceNoSpace(w: string)
    requires NoSpace(w)
    ensures NoSpace(ReplaceAll(w, '_', '-')) && |ReplaceAll(w, '_', '-')| == |w|
  {
  }

  /**
   * A `text` line exists for every line that is not blank; its first field is
   * the key with `_` made `-`, followed by one space and a transcript that is
   * lower-case, single-spaced, and splits into the line's remaining tokens,
   * lower-cased.
   */
  lemma TextLineShape(line: string)
    ensures TextLine(line).Failure? <==> Blank(line)
    ensures TextLine(line).Failure? ==> TextLine(line).error == NoFields
    ensures TextLine(line).Success? ==>
      var ws := Words(line);
      var rec := TextLine(line).value;
      var id := ReplaceAll(ws[0], '_', '-');
      |rec| > |id| && rec[..|id| + 1] == id + " " &&
      SingleSpaced(rec[|id| + 1..]) && Lower(rec[|id| + 1..]) == rec[|id| + 1..] &&
      Words(rec) == [id] + LowerAll(ws[1..]) &&
      '\n' !in rec
  {
    var ws := Words(line);
    if ws != [] {
      var id := ReplaceAll(ws[0], '_', '-');
      var t := Lower(Join(ws[1..], " "));
      var rec := id + " " + t;
      assert TextLine(line).value == rec;
      assert rec[..|id| + 1] == id + " " && rec[|id| + 1..] == t;
      TranscriptFacts(ws[1..]);
      ReplaceNoSpace(ws[0]);
      FieldThenText(id, t);
    }
  }

  /** A relocated audio path has no whitespace when the utterance's parts have none. */
  lemma AudioPathNoSpace(split: Split, u: Utterance)
    requires NoSpace(u.speaker) && NoSpace(u.local)
    ensures AudioPath(split, u) != [] && NoSpace(AudioPath(split, u))
  {
    var prefix := "./audio/" + split.Name() + "/";
    assert NoSpace(prefix);
    NoSpaceConcat(prefix, u.speaker);
    NoSpaceConcat(prefix + u.speaker, "/");
    NoSpaceConcat(prefix + u.speaker + "/", u.local);
    NoSpaceConcat(prefix + u.speaker + "/" + u.local, ".wav");
  }

  /** The utterance id of whitespace-free parts is a whitespace-free field. */
  lemma IdNoSpace(u: Utterance)
    requires NoSpace(u.speaker) && NoSpace(u.local)
    ensures u.Id() != [] && NoSpace(u.Id())
  {
    NoSpaceConcat(u.speaker, "-");
    NoSpaceConcat(u.speaker + "-", u.local);
  }

  /** A `wav.scp` record has two fields, the id and the audio path, and no newline. */
  lemma WavRecordShape(split: Split, u: Utterance)
    requires NoSpace(u.speaker) && NoSpace(u.local)
    ensures Words(WavRecord(split, u)) == [u.Id(), AudioPath(split, u)]
    ensures FirstField(WavRecord(split, u)) == u.Id()
    ensures '\n' !in WavRecord(split, u)
  {
    IdNoSpace(u);
    AudioPathNoSpace(split, u);
    WordsOfPair(u.Id(), AudioPath(split, u));
  }

  /** An `utt2spk` record has the id and the speaker as fields (only the id for a blank speaker), and no newline. */
  lemma Utt2SpkRecordShape(u: Utterance)
    requires NoSpace(u.speaker) && NoSpace(u.local)
    ensures Words(Utt2SpkRecord(u)) == [u.Id()] + (if u.speaker == "" then [] else [u.speaker])
    ensures FirstField(Utt2SpkRecord(u)) == u.Id()
    ensures '\n' !in Utt2SpkRecord(u)
  {
    IdNoSpace(u);
    if u.speaker == "" {
      var rec := Utt2SpkRecord(u);
      assert rec == u.Id() + " ";
      WordsOfWordThen(u.Id(), " ");
      WordsOfSpaceThen("");
      assert IsSpace('\n');
      assert forall i :: 0 <= i < |rec| ==> (i < |u.Id()| && rec[i] == u.Id()[i]) || rec[i] == ' ';
    } else {
      WordsOfPair(u.Id(), u.speaker);
    }
  }

  /**
   * A `wav.scp` line exists exactly when the line's first field holds one
   * underscore; it is the utterance id and the relocated audio path, as two
   * fields.
   */
  lemma WavLineShape(split: Split, line: string)
    ensures WavLine(split, line).Success? <==> Words(line) != [] && multiset(Words(line)[0])['_'] == 1
    ensures WavLine(split, line).Failure? ==>
      WavLine(split, line).error ==
        if Words(line) == [] then NoFields else KeyParts(Words(line)[0], multiset(Words(line)[0])['_'] + 1)
    ensures WavLine(split, line).Success? ==>
      var u := ParseKey(Words(line)[0]).value;
      var rec := WavLine(split, line).value;
      u.RawKey() == Words(line)[0] && Words(rec) == [u.Id(), AudioPath(split, u)] &&
      FirstField(rec) == u.Id() && '\n' !in rec
  {
    var ws := Words(line);
    if ws != [] && ParseKey(ws[0]).Success? {
      ParseKeyNoSpace(ws[0]);
      WavRecordShape(split, ParseKey(ws[0]).value);
    }
  }

  /**
   * An `utt2spk` line exists exactly when the line's first field holds one
   * underscore; it is the utterance id and the speaker (a blank speaker
   * leaves only the id).
   */
  lemma Utt2SpkLineShape(line: string)
    ensures Utt2SpkLine(line).Success? <==> Words(line) != [] && multiset(Words(line)[0])['_'] == 1
    ensures Utt2SpkLine(line).Failure? ==>
      Utt2SpkLine(line).error ==
        if Words(line) == [] then NoFields else KeyParts(Words(line)[0], multiset(Words(line)[0])['_'] + 1)
    ensures Utt2SpkLine(line).Success? ==>
      var u := ParseKey(Words(line)[0]).value;
      var rec := Utt2SpkLine(line).value;
      u.RawKey() == Words(line)[0] &&
      Words(rec) == [u.Id()] + (if u.speaker == "" then [] else [u.speaker]) &&
      FirstField(rec) == u.Id() && '\n' !in rec
  {
    var ws := Words(line);
    if ws != [] && ParseKey(ws[0]).Success? {
      ParseKeyNoSpace(ws[0]);
      Utt2SpkRecordShape(ParseKey(ws[0]).value);
    }
  }

  /**
   * Wherever the `wav.scp` line of a manifest line exists, so do its `text`
   * and `utt2spk` lines, and all three start with the same utterance id.
   */
  lemma UtteranceIdAgrees(split: Split, line: string)
    requires WavLine(split, line).Success?
    ensures TextLine(line).Success? && Utt2SpkLine(line).Success?
    ensures FirstField(TextLine(line).value) == FirstField(WavLine(split, line).value)
    ensures FirstField(Utt2SpkLine(line).value) == FirstField(WavLine(split, line).value)
  {
    var ws := Words(line);
    TextLineShape(line);
    WavLineShape(split, line);
    Utt2SpkLineShape(line);
    ReplacedKeyIsId(ws[0]);
  }

  // ---------------------------------------------------------------------------
  // The three files of one split
  // ---------------------------------------------------------------------------

  /** `_make_sub_text`: the `text` lines in manifest order, joined by "\n". */
  function TextFile(prompts: string): Result<string, LineError> {
    match Collect(SplitLines(prompts), TextLine)
    case Failure(e) => Failure(e)
    case Success(out) => Success(Join(out, "\n"))
  }

  /** The `wav.scp` lines of a manifest, in manifest order. */
  function WavRecords(split: Split, prompts: string): Result<seq<string>, LineError> {
    Collect(SplitLines(prompts), WavLineOf(split))
  }

  /** The `utt2spk` lines of a manifest, in manifest order. */
  function Utt2SpkRecords(prompts: string): Result<seq<string>, LineError> {
    Collect(SplitLines(prompts), Utt2SpkLine)
  }

  /** `"\n".join(sorted(output, key=lambda x: x.split()[0])) + "\n"`. */
  function SortedContent(records: seq<string>): string {
    Join(SortByKey(FirstField, records), "\n") + "\n"
  }

  /** `_make_sub_wav`: the `wav.scp` lines sorted by utterance id, with a final "\n". */
  function WavScpFile(split: Split, prompts: string): Result<string, LineError> {
    match WavRecords(split, prompts)
    case Failure(e) => Failure(e)
    case Success(out) => Success(SortedContent(out))
  }

  /** `_make_sub_utt2spk`: the `utt2spk` lines sorted by utterance id, with a final "\n". */
  function Utt2SpkFile(prompts: string): Result<string, LineError> {
    match Utt2SpkRecords(prompts)
    case Failure(e) => Failure(e)
    case Success(out) => Success(SortedContent(out))
  }

  /**
   * The text of `text` is one line per manifest line, in manifest order, with
   * no final newline; it exists exactly when no manifest line is blank, and
   * otherwise the first blank line is reported.
   */
  lemma TextFileSpec(prompts: string)
    ensures var lines := SplitLines(prompts);
      TextFile(prompts).Success? <==> forall i :: 0 <= i < |lines| ==> Words(lines[i]) != []
    ensures var lines := SplitLines(prompts);
      TextFile(prompts).Failure? ==>
        var e := TextFile(prompts).error;
        e.index < |lines| && Words(lines[e.index]) == [] && e.fault == NoFields &&
        forall j :: 0 <= j < e.index ==> Words(lines[j]) != []
    ensures var lines := SplitLines(prompts);
      TextFile(prompts).Success? ==>
        var content := TextFile(prompts).value;
        var out := SplitLines(content);
        |out| == |lines| && (forall i :: 0 <= i < |lines| ==> TextLine(lines[i]) == Success(out[i])) &&
        (content == "" <==> lines == []) &&
        (content != "" ==> content[|content| - 1] != '\n')
  {
    var lines := SplitLines(prompts);
    forall i | 0 <= i < |lines| ensures TextLine(lines[i]).Failure? <==> Words(lines[i]) == [] {
      TextLineShape(lines[i]);
    }
    var r := Collect(lines, TextLine);
    if r.Success? {
      var out := r.value;
      forall i | 0 <= i < |out| ensures '\n' !in out[i] && out[i] != "" {
        TextLineShape(lines[i]);
      }
      SplitLinesJoin(out);
      if out != [] {
        JoinNonEmpty(out, "\n");
        JoinLast(out, "\n");
      }
    }
  }

  /** The last character of a join is that of its last part. */
  lemma {:induction false} JoinLast(parts: seq<string>, sep: string)
    requires parts != [] && parts[|parts| - 1] != ""
    ensures var j := Join(parts, sep); j != "" && j[|j| - 1] == parts[|parts| - 1][|parts[|parts| - 1]| - 1]
  {
    JoinNonEmpty(parts, sep);
    if |parts| > 1 {
      JoinLast(parts[1..], sep);
    }
  }

  /**
   * Sorted content always ends in a newline (for no records it is just
   * "\n"); otherwise its lines are the records, ascending by first field,
   * with the records of each key in their original order.
   */
  lemma SortedContentSpec(records: seq<string>)
    requires forall i :: 0 <= i < |records| ==> '\n' !in records[i]
    ensures var c := SortedContent(records); c != "" && c[|c| - 1] == '\n'
    ensures records == [] ==> SortedContent(records) == "\n"
    ensures records != [] ==>
      var out := SplitLines(SortedContent(records));
      out == SortByKey(FirstField, records) &&
      SortedByKey(FirstField, out) && multiset(out) == multiset(records) &&
      forall k :: Filter(FirstField, out, k) == Filter(FirstField, records, k)
  {
    var sorted := SortByKey(FirstField, records);
    SortByKeySorted(FirstField, records);
    SortByKeyStable(FirstField, records);
    if records != [] {
      forall i | 0 <= i < |sorted| ensures '\n' !in sorted[i] {
        assert sorted[i] in multiset(records);
      }
      assert sorted != [] by {
        assert records[0] in multiset(sorted);
      }
      SplitLinesJoinTerminated(sorted);
    }
  }

  /**
   * When every line has a record (the failure case is `Collect`'s own
   * contract), the sorted file of those records ends in a newline and its
   * lines are the records sorted stably by first field.
   */
  lemma SortedFileSpec(lines: seq<string>, f: string -> Result<string, Fault>)
    requires forall l :: f(l).Success? ==> '\n' !in f(l).value
    ensures Collect(lines, f).Success? ==>
      var recs := Collect(lines, f).value;
      var c := SortedContent(recs);
      c != "" && c[|c| - 1] == '\n' && (lines == [] ==> c == "\n") &&
      (lines != [] ==>
        var out := SplitLines(c);
        SortedByKey(FirstField, out) && multiset(out) == multiset(recs) &&
        forall k :: Filter(FirstField, out, k) == Filter(FirstField, recs, k))
  {
    if Collect(lines, f).Success? {
      var recs := Collect(lines, f).value;
      SortedContentSpec(recs);
    }
  }

  /**
   * `wav.scp` exists exactly when every manifest line has a first field with
   * one underscore, else the first line that has not is reported. Its lines
   * are the manifest's `wav.scp` lines, each `speaker-local` and the audio
   * path, sorted stably by utterance id; it always ends in a newline.
   */
  lemma WavScpFileSpec(split: Split, prompts: string)
    ensures var lines := SplitLines(prompts);
      WavScpFile(split, prompts).Success? <==>
        forall i :: 0 <= i < |lines| ==> Words(lines[i]) != [] && multiset(Words(lines[i])[0])['_'] == 1
    ensures var lines := SplitLines(prompts);
      WavScpFile(split, prompts).Failure? ==>
        var e := WavScpFile(split, prompts).error;
        e.index < |lines| && WavLine(split, lines[e.index]) == Failure(e.fault) &&
        forall j :: 0 <= j < e.index ==> WavLine(split, lines[j]).Success?
    ensures var lines := SplitLines(prompts);
      WavScpFile(split, prompts).Success? ==>
        var recs := WavRecords(split, prompts).value;
        var c := WavScpFile(split, prompts).value;
        |recs| == |lines| && (forall i :: 0 <= i < |lines| ==> WavLine(split, lines[i]) == Success(recs[i])) &&
        c != "" && c[|c| - 1] == '\n' && (lines == [] ==> c == "\n") &&
        (lines != [] ==>
          var out := SplitLines(c);
          SortedByKey(FirstField, out) && multiset(out) == multiset(recs) &&
          forall k :: Filter(FirstField, out, k) == Filter(FirstField, recs, k))
  {
    var lines := SplitLines(prompts);
    forall l | WavLineOf(split)(l).Success? ensures '\n' !in WavLineOf(split)(l).value {
      WavLineShape(split, l);
    }
    forall i | 0 <= i < |lines| ensures WavLine(split, lines[i]).Success? <==> Words(lines[i]) != [] && multiset(Words(lines[i])[0])['_'] == 1 {
      WavLineShape(split, lines[i]);
    }
    SortedFileSpec(lines, WavLineOf(split));
  }

  /**
   * `utt2spk` exists exactly when `wav.scp` does; its lines are the
   * manifest's `utt2spk` lines, each `speaker-local speaker`, sorted stably by
   * utterance id; it always ends in a newline.
   */
  lemma Utt2SpkFileSpec(prompts: string)
    ensures var lines := SplitLines(prompts);
      Utt2SpkFile(prompts).Success? <==>
        forall i :: 0 <= i < |lines| ==> Words(lines[i]) != [] && multiset(Words(lines[i])[0])['_'] == 1
    ensures var lines := SplitLines(prompts);
      Utt2SpkFile(prompts).Failure? ==>
        var e := Utt2SpkFile(prompts).error;
        e.index < |lines| && Utt2SpkLine(lines[e.index]) == Failure(e.fault) &&
        forall j :: 0 <= j < e.index ==> Utt2SpkLine(lines[j]).Success?
    ensures var lines := SplitLines(prompts);
      Utt2SpkFile(prompts).Success? ==>
        var recs := Utt2SpkRecords(prompts).value;
        var c := Utt2SpkFile(prompts).value;
        |recs| == |lines| && (forall i :: 0 <= i < |lines| ==> Utt2SpkLine(lines[i]) == Success(recs[i])) &&
        c != "" && c[|c| - 1] == '\n' && (lines == [] ==> c == "\n") &&
        (lines != [] ==>
          var out := SplitLines(c);
          SortedByKey(FirstField, out) && multiset(out) == multiset(recs) &&
          forall k :: Filter(FirstField, out, k) == Filter(FirstField, recs, k))
  {
    var lines := SplitLines(prompts);
    forall l | Utt2SpkLine(l).Success? ensures '\n' !in Utt2SpkLine(l).value {
      Utt2SpkLineShape(l);
    }
    forall i | 0 <= i < |lines| ensures Utt2SpkLine(lines[i]).Success? <==> Words(lines[i]) != [] && multiset(Words(lines[i])[0])['_'] == 1 {
      Utt2SpkLineShape(lines[i]);
    }
    SortedFileSpec(lines, Utt2SpkLine);
  }

  /** Records with the same keys, line by line, give sorted files with the same keys, line by line. */
  lemma SortedContentSameKeys(a: seq<string>, b: seq<string>)
    requires SameKeys(FirstField, a, b)
    requires forall i :: 0 <= i < |a| ==> '\n' !in a[i]
    requires forall i :: 0 <= i < |b| ==> '\n' !in b[i]
    ensures SameKeys(FirstField, SplitLines(SortedContent(a)), SplitLines(SortedContent(b)))
  {
    SortByKeySameKeys(FirstField, a, b);
    SortedContentSpec(a);
    SortedContentSpec(b);
  }

  /** The `text` records of a manifest whose `wav.scp` exists, with their ids. */
  lemma TextRecordsAgree(split: Split, prompts: string)
    requires WavRecords(split, prompts).Success?
    ensures Collect(SplitLines(prompts), TextLine).Success? && Utt2SpkRecords(prompts).Success?
    ensures SameKeys(FirstField, WavRecords(split, prompts).value, Collect(SplitLines(prompts), TextLine).value)
    ensures SameKeys(FirstField, Utt2SpkRecords(prompts).value, Collect(SplitLines(prompts), TextLine).value)
  {
    var lines := SplitLines(prompts);
    var wav := WavRecords(split, prompts).value;
    forall i | 0 <= i < |lines|
      ensures TextLine(lines[i]).Success? && Utt2SpkLine(lines[i]).Success?
      ensures FirstField(TextLine(lines[i]).value) == FirstField(wav[i])
      ensures FirstField(Utt2SpkLine(lines[i]).value) == FirstField(wav[i])
    {
      assert WavLineOf(split)(lines[i]) == Success(wav[i]);
      UtteranceIdAgrees(split, lines[i]);
    }
  }

  /**
   * The files agree on utterances: when `wav.scp` exists, so do `text` and
   * `utt2spk`, and the utterance ids of `wav.scp` and of `utt2spk`, line by
   * line, are those of `text` sorted by id.
   */
  lemma ArtifactsAgree(split: Split, prompts: string)
    requires WavScpFile(split, prompts).Success?
    ensures TextFile(prompts).Success? && Utt2SpkFile(prompts).Success?
    ensures var text := SplitLines(TextFile(prompts).value);
      SameKeys(FirstField, SplitLines(WavScpFile(split, prompts).value), SplitLines(SortedContent(text))) &&
      SameKeys(FirstField, SplitLines(Utt2SpkFile(prompts).value), SplitLines(SortedContent(text)))
  {
    TextRecordsAgree(split, prompts);
    TextFileSpec(prompts);
    var lines := SplitLines(prompts);
    var text := Collect(lines, TextLine).value;
    assert SplitLines(TextFile(prompts).value) == text;
    var wav := WavRecords(split, prompts).value;
    var utt := Utt2SpkRecords(prompts).value;
    forall i | 0 <= i < |text| ensures '\n' !in text[i] {
      TextLineShape(lines[i]);
    }
    forall i | 0 <= i < |wav| ensures '\n' !in wav[i] {
      assert WavLineOf(split)(lines[i]) == Success(wav[i]);
      WavLineShape(split, lines[i]);
    }
    forall i | 0 <= i < |utt| ensures '\n' !in utt[i] {
      Utt2SpkLineShape(lines[i]);
    }
    SortedContentSameKeys(wav, text);
    SortedContentSameKeys(utt, text);
  }

  // ---------------------------------------------------------------------------
  // The builders, as the script writes them
  // ---------------------------------------------------------------------------

  /** `_make_sub_text` on the content of `prompts.txt`; writing the file is left out. */
  method MakeSubText(prompts: string) returns (r: Result<string, LineError>)
    ensures r == TextFile(prompts)
  {
    var lines := SplitLines(prompts);
    var output: seq<string> := [];
    for i := 0 to |lines|
      invariant Collect(lines[..i], TextLine) == Success(output)
    {
      var items := Words(lines[i]);
      if items == [] {
        CollectStops(lines, i, TextLine);
        return Failure(LineError(i, NoFields));
      }
      var uttId := ReplaceAll(items[0], '_', '-');
      var text := Lower(Join(items[1..], " "));
      var lineContent := uttId + " " + text;
      CollectStep(lines, i, TextLine, output);
      output := output + [lineContent];
    }
    assert lines[..|lines|] == lines;
    r := Success(Join(output, "\n"));
  }

  /** `_make_sub_wav` on the content of `prompts.txt`; writing the file is left out. */
  method MakeSubWav(split: Split, prompts: string) returns (r: Result<string, LineError>)
    ensures r == WavScpFile(split, prompts)
  {
    var lines := SplitLines(prompts);
    var output: seq<string> := [];
    for i := 0 to |lines|
      invariant Collect(lines[..i], WavLineOf(split)) == Success(output)
    {
      var items := Words(lines[i]);
      if items == [] {
        CollectStops(lines, i, WavLineOf(split));
        return Failure(LineError(i, NoFields));
      }
      var parts := SplitOn(items[0], '_');
      if |parts| != 2 {
        CollectStops(lines, i, WavLineOf(split));
        SplitOnCount(items[0], '_');
        return Failure(LineError(i, KeyParts(items[0], |parts|)));
      }
      var speakerId, uttId := parts[0], parts[1];
      var wav := WavRecord(split, Utterance(speakerId, uttId));
      CollectStep(lines, i, WavLineOf(split), output);
      output := output + [wav];
    }
    assert lines[..|lines|] == lines;
    output := SortByKey(FirstField, output);
    r := Success(Join(output, "\n") + "\n");
  }

  /** `_make_sub_utt2spk` on the content of `prompts.txt`; writing the file is left out. */
  method MakeSubUtt2Spk(prompts: string) returns (r: Result<string, LineError>)
    ensures r == Utt2SpkFile(prompts)
  {
    var lines := SplitLines(prompts);
    var output: seq<string> := [];
    for i := 0 to |lines|
      invariant Collect(lines[..i], Utt2SpkLine) == Success(output)
    {
      var items := Words(lines[i]);
      if items == [] {
        CollectStops(lines, i, Utt2SpkLine);
        return Failure(LineError(i, NoFields));
      }
      var parts := SplitOn(items[0], '_');
      if |parts| != 2 {
        CollectStops(lines, i, Utt2SpkLine);
        SplitOnCount(items[0], '_');
        return Failure(LineError(i, KeyParts(items[0], |parts|)));
      }
      var speakerId, uttId := parts[0], parts[1];
      var uttMap := Utt2SpkRecord(Utterance(speakerId, uttId));
      CollectStep(lines, i, Utt2SpkLine, output);
      output := output + [uttMap];
    }
    assert lines[..|lines|] == lines;
    output := SortByKey(FirstField, output);
    r := Success(Join(output, "\n") + "\n");
  }

  // ---------------------------------------------------------------------------
  // Audio file names
  // ---------------------------------------------------------------------------

  /** `filename.split(".")[0]`: the name up to its first dot. */
  function Stem(filename: string): (stem: string)
    ensures '.' !in stem && |stem| <= |filename| && stem == filename[..|stem|]
    ensures |stem| < |filename| ==> filename[|stem|] == '.'
  {
    SplitOnPieces(filename, '.');
    SplitOnJoinBack(filename, '.');
    var parts := SplitOn(filename, '.');
    assert |parts| > 1 ==> filename == parts[0] + "." + Join(parts[1..], ".");
    parts[0]
  }

  /**
   * The name a copied audio file is given: the stem must split on `_` into
   * speaker and local id, and the new name is the local id with `.wav`,
   * whatever the old extension.
   */
  function RenamedAudio(filename: string): (r: Result<string, Fault>)
    ensures r.Success? <==> multiset(Stem(filename))['_'] == 1
    ensures r.Failure? ==> r.error == KeyParts(Stem(filename), multiset(Stem(filename))['_'] + 1)
    ensures r.Success? ==>
      exists u: Utterance :: u.RawKey() == Stem(filename) && '_' !in u.local && '.' !in u.local &&
        r.value == u.local + ".wav"
  {
    var stem := Stem(filename);
    match ParseKey(stem)
    case Failure(fault) => Failure(fault)
    case Success(u) =>
      ParsedPartsAvoid(stem, '.');
      Success(u.local + ".wav")
  }

  /** `speaker_local` followed by any extension is renamed `local.wav`. */
  lemma RenamedAudioRoundTrip(u: Utterance, ext: string)
    requires '_' !in u.speaker && '_' !in u.local && '.' !in u.speaker && '.' !in u.local
    requires ext == "" || ext[0] == '.'
    ensures RenamedAudio(u.RawKey() + ext) == Success(u.local + ".wav")
  {
    SplitOnFirst(u.RawKey(), '.', ext);
    ParseKeyRoundTrip(u);
  }

  /**
   * A renamed file cannot be renamed again: its stem has no underscore, so
   * running the step over an already relocated tree fails.
   */
  lemma RenamedAudioRejectsRenamed(filename: string)
    requires RenamedAudio(filename).Success?
    ensures RenamedAudio(RenamedAudio(filename).value).Failure?
  {
    var u := ParseKey(Stem(filename)).value;
    var name := u.local + ".wav";
    ParsedPartsAvoid(Stem(filename), '.');
    assert RenamedAudio(filename).value == name;
    SplitOnFirst(u.local, '.', ".wav");
    assert Stem(name) == u.local;
    assert multiset(u.local)['_'] == 0;
  }

  /**
   * The audio of a manifest key lands where `wav.scp` says it is: the file
   * `key.wav` in the speaker's directory is renamed to the last part of the
   * utterance's audio path.
   */
  lemma AudioPathOfRenamed(split: Split, key: string)
    requires ParseKey(key).Success? && '.' !in key
    ensures var u := ParseKey(key).value;
      RenamedAudio(key + ".wav").Success? &&
      AudioPath(split, u) == "./audio/" + split.Name() + "/" + u.speaker + "/" + RenamedAudio(key + ".wav").value
  {
    var u := ParseKey(key).value;
    ParsedPartsAvoid(key, '.');
    RenamedAudioRoundTrip(u, ".wav");
    assert u.RawKey() + ".wav" == key + ".wav";
  }

  /**
   * With a dot in the local id the two disagree: the rename stops the stem at
   * the first dot, so the file `key.wav` never gets the name that ends the
   * utterance's `wav.scp` path.
   */
  lemma DottedLocalMissesAudioPath(split: Split, key: string)
    requires ParseKey(key).Success? && '.' in ParseKey(key).value.local
    ensures var u := ParseKey(key).value;
      AudioPath(split, u) == "./audio/" + split.Name() + "/" + u.speaker + "/" + u.local + ".wav" &&
      RenamedAudio(key + ".wav") != Success(u.local + ".wav")
  {
    var u := ParseKey(key).value;
    var r := RenamedAudio(key + ".wav");
    if r.Success? {
      var v: Utterance :| v.RawKey() == Stem(key + ".wav") && '_' !in v.local && '.' !in v.local &&
        r.value == v.local + ".wav";
      assert (u.local + ".wav")[..|u.local|] == u.local;
      assert r.value[..|v.local|] == v.local;
      assert |r.value| == |u.local + ".wav"| ==> r.value[..|u.local|] != u.local;
    }
  }

  /** The rename cuts a local id at its first dot. */
  lemma RenamedAudioCutsAtDot(u: Utterance, i: nat)
    requires '_' !in u.speaker && '_' !in u.local && '.' !in u.speaker
    requires i < |u.local| && u.local[i] == '.' && '.' !in u.local[..i]
    ensures RenamedAudio(u.RawKey() + ".wav") == Success(u.local[..i] + ".wav")
  {
    var v := Utterance(u.speaker, u.local[..i]);
    assert u.local == v.local + u.local[i..];
    assert u.RawKey() + ".wav" == v.RawKey() + (u.local[i..] + ".wav");
    RenamedAudioRoundTrip(v, u.local[i..] + ".wav");
  }

  /** The manifest key `S_1.x`: `wav.scp` expects the file `1.x.wav` in the speaker's directory. */
  lemma DottedKeyAudioPath()
    ensures Utterance("S", "1.x").RawKey() == "S_1.x"
    ensures AudioPath(Train, Utterance("S", "1.x")) == "./audio/train/S/1.x.wav"
  {
  }

  /** The file `S_1.x.wav` of that key is renamed `"1.x"[..1] + ".wav"`, that is `1.wav`. */
  lemma DottedKeyRenamed()
    ensures var u := Utterance("S", "1.x");
      RenamedAudio(u.RawKey() + ".wav") == Success(u.local[..1] + ".wav")
  {
    RenamedAudioCutsAtDot(Utterance("S", "1.x"), 1);
  }

  /** One `mv` of the rename step. */
  datatype Move = Move(source: string, target: string)

  /** The `mv` the rename step issues for one file. */
  function PlanMove(filename: string): Result<Move, Fault> {
    match RenamedAudio(filename)
    case Failure(fault) => Failure(fault)
    case Success(name) => Success(Move(filename, name))
  }

  /**
   * The rename loop of `_copy_sound_files` over one speaker directory's
   * listing: the moves issued, in order, and the file that stopped it, if
   * any; the moves before a failure have already happened.
   */
  method RenameSpeakerFiles(filenames: seq<string>) returns (moves: seq<Move>, failure: Option<LineError>)
    ensures failure.None? ==> Collect(filenames, PlanMove) == Success(moves)
    ensures failure.Some? ==>
      Collect(filenames, PlanMove) == Failure(failure.value) &&
      Collect(filenames[..failure.value.index], PlanMove) == Success(moves)
  {
    moves := [];
    for i := 0 to |filenames|
      invariant Collect(filenames[..i], PlanMove) == Success(moves)
    {
      var filename := filenames[i];
      var items := SplitOn(filename, '.');
      var parts := SplitOn(items[0], '_');
      if |parts| != 2 {
        CollectStops(filenames, i, PlanMove);
        SplitOnCount(items[0], '_');
        return moves, Some(LineError(i, KeyParts(items[0], |parts|)));
      }
      var uttId := parts[1];
      CollectStep(filenames, i, PlanMove, moves);
      moves := moves + [Move(filename, uttId + ".wav")];
    }
    assert filenames[..|filenames|] == filenames;
    failure := None;
  }
}
