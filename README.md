# VIVOS data preparation, modelled in Dafny

`VivosDataProcessor` (local/prepare_data.py) turns the VIVOS speech corpus into
a Kaldi data directory. For each split (`train`, `test`) it reads the manifest
`prompts.txt`, whose lines are `speaker_local TOKEN TOKEN ...`, and writes three
text files:

- `text`: `speaker-local` and the lower-cased transcript, one line per manifest
  line, in manifest order, joined by "\n" with no final newline;
- `wav.scp`: `speaker-local ./audio/<split>/speaker/local.wav`, sorted by
  utterance id, with a final "\n";
- `utt2spk`: `speaker-local speaker`, sorted by utterance id, with a final "\n".

It also copies each speaker's audio directory and renames every file
`speaker_local.ext` to `local.wav`.

This project models those transformations:

- `wrappers.dfy` (module `Wrappers`): `Result` and `Option`, standing for the
  script's exceptions.
- `strings.dfy` (module `Strings`): the Python string operations the script is
  made of: `str.split()` (`Words`, splitting at Python's full `str.isspace()`
  set, `IsSpace`), `str.split(c)` (`SplitOn`), `str.join`
  (`Join`), `str.replace` (`ReplaceAll`), `str.lower` (`Lower`) and
  `str.splitlines` (`SplitLines`). `Words`, `SplitOn` and `SplitLines` each
  come with a round trip through `Join`; `ReplaceAll` is tied to the
  utterance id (`ReplacedKeyIsId`), and `Lower` is shown to keep whitespace
  and to be idempotent (`LowerCharFacts`, `TranscriptFacts`).
- `sorting.dfy` (module `Sorting`): `sorted(lines, key=lambda x: x.split()[0])`
  as a stable insertion sort (`SortByKey`) under Python's string order
  (`LexLe`). It is proved sorted, a permutation, stable, and the only sorted
  arrangement that keeps the order of equal keys.
- `prepare_data.dfy` (module `PrepareData`):
  - the per-line records (`TextLine`, `WavLine`, `Utt2SpkLine`);
  - the key split `speaker_id, utt_id = key.split("_")` (`ParseKey`);
  - the three files as functions of the manifest text (`TextFile`,
    `WavScpFile`, `Utt2SpkFile`);
  - the three builders as methods with the source's loop-and-append shape,
    each proved equal to its function (`MakeSubText`, `MakeSubWav`,
    `MakeSubUtt2Spk`);
  - the audio rename (`RenamedAudio`, and the per-directory loop
    `RenameSpeakerFiles`).

A Python exception is a `Failure` carrying the position of the first refused
line (or file name) and a `Fault`. `NoFields` is the IndexError of `items[0]`
on a blank line. `KeyParts` is the ValueError of unpacking a key that does not
split into exactly two parts on `_`. The builders take the content of
`prompts.txt` and return the content of the file they would write. Reading and
writing files are parameters and results here, not effects.

Behaviour of the script worth noting:

- a renamed audio file always gets the extension `.wav`, whatever its
  original extension was;
- a manifest line holding only a key is accepted. Its `text` line is the id
  followed by one space;
- a malformed key stops the run at the first offending line, with no message
  naming the split or the line. The model adds the line position to the error
  value; the script's traceback does not carry it;
- the rename step cannot be run twice: a second run over an existing
  `audio/<split>/<speaker>` mirror meets an already renamed `local.wav`, whose
  stem has no `_`, and stops with the unpacking error
  (`RenamedAudioRejectsRenamed`);
- a local id containing a dot is cut at that dot by the rename: for the key
  `S_1.x`, `wav.scp` names `./audio/<split>/S/1.x.wav`, but the file
  `S_1.x.wav` becomes `1.wav`. For such keys `wav.scp` names a file the rename
  step never produces (`DottedLocalMissesAudioPath`, `DottedKeyAudioPath`,
  `DottedKeyRenamed`).

## Model

| member | source | states |
|---|---|---|
| `Strings.IsSpace` | local/prepare_data.py:99 | the separators of `line.split()` (also at local/prepare_data.py:126 and 162): Python's full `str.isspace()` set (tab to carriage return, \x1c-\x1f, \x85, no-break space, U+1680, U+2000-U+200A, U+2028, U+2029, U+202F, U+205F, U+3000); `Words` and `WordsRebuild` state their contracts in its terms |
| `Strings.Words` | local/prepare_data.py:99 | `line.split()` yields non-empty, whitespace-free fields, and none exactly when the line is all whitespace; `WordsRebuild` states which fields |
| `Strings.WordsRebuild` | local/prepare_data.py:99 | every line is its `split()` fields interleaved with whitespace runs, the runs between two fields non-empty: the fields are the maximal non-whitespace runs of the line, in order |
| `Strings.Join` | local/prepare_data.py:101 | `sep.join(parts)`; its contract is stated by `JoinSingleSpaced`, `WordsJoin` and `SplitOnJoinBack` |
| `Strings.Lower` | local/prepare_data.py:101 | `str.lower()` character by character; its contract is stated by `LowerCharFacts` and `TranscriptFacts` |
| `Strings.LowerChar` | local/prepare_data.py:101 | the per-character table of `str.lower()`; its contract is stated by `LowerCharFacts` |
| `Strings.ReplaceAll` | local/prepare_data.py:100 | `key.replace("_", "-")`; its contract is stated by `ReplacedKeyIsId` |
| `Strings.SplitOn` | local/prepare_data.py:79-80 | `s.split(c)` returns at least one piece; its contract is stated by `SplitOnCount`, `SplitOnPieces`, `SplitOnJoinBack` and `SplitOnJoin` |
| `Strings.SplitLines` | local/prepare_data.py:95 | `splitlines()` gives lines holding no newline; `SplitLinesJoin` and `SplitLinesJoinTerminated` state that it reads back joined lines |
| `Strings.WordsJoin` | local/prepare_data.py:101 | fields joined by single spaces split back into the same fields |
| `Strings.JoinSingleSpaced` | local/prepare_data.py:101 | `" ".join(fields)` has no leading, trailing or doubled whitespace, and starts with a non-space |
| `Strings.TranscriptFacts` | local/prepare_data.py:101 | the transcript `" ".join(items[1:]).lower()` is single-spaced, already lower-case, and splits into the lower-cased tokens |
| `Strings.LowerCharFacts` | local/prepare_data.py:101 | lower-casing a character neither creates nor removes whitespace and is idempotent |
| `Strings.SplitOnCount` | local/prepare_data.py:127 | `key.split("_")` has one piece more than the key has underscores |
| `Strings.SplitOnPieces` | local/prepare_data.py:127 | no piece of `key.split("_")` holds an underscore |
| `Strings.SplitOnJoinBack` | local/prepare_data.py:127 | joining the pieces of `s.split(c)` with `c` gives `s` back |
| `Strings.SplitOnJoin` | local/prepare_data.py:127 | splitting separator-free pieces joined by the separator gives the pieces back |
| `Strings.SplitOnFirst` | local/prepare_data.py:79 | the first piece of `(a + b).split(c)` is `a` when `a` has no `c` and `b` is empty or starts with `c` |
| `Strings.SplitLinesJoin` | local/prepare_data.py:105 | lines joined by "\n" read back with `splitlines()` as the same lines when the last one is non-empty |
| `Strings.SplitLinesJoinTerminated` | local/prepare_data.py:133 | a non-empty list of lines joined by "\n" plus a final "\n" reads back as the same lines |
| `Sorting.FirstField` | local/prepare_data.py:132 | the sort key `x.split()[0]`; its contract is stated by `FirstFieldOf` |
| `Sorting.LexLe` | local/prepare_data.py:132 | Python's `<=` on `str`, the comparison behind `sorted` (also at local/prepare_data.py:168): lexicographic by code point, a proper prefix first; `LexLeRefl`, `LexLeTotal`, `LexLeAntisym` and `LexLeTrans` make it a total order |
| `Sorting.SortByKey` | local/prepare_data.py:132 | `sorted(output, key=...)`; its contract is stated by `SortByKeySorted`, `SortByKeyStable` and `SortByKeyUnique` |
| `Sorting.FirstFieldOf` | local/prepare_data.py:132 | the sort key `x.split()[0]` of `field + " " + rest` is `field` when the field is non-empty and whitespace-free |
| `Sorting.SortByKeySorted` | local/prepare_data.py:132 | the sorted lines are ascending by key and a permutation of the input |
| `Sorting.SortByKeyStable` | local/prepare_data.py:132 | for every key, the lines carrying it keep their input order |
| `Sorting.SortedStableUnique` | local/prepare_data.py:132 | two sorted lists that hold the same lines for every key, in the same order, are equal |
| `Sorting.SortByKeyUnique` | local/prepare_data.py:132 | the sort's result is the only sorted list that keeps every key's lines in input order |
| `Sorting.SortByKeySameKeys` | local/prepare_data.py:168 | the order of keys after sorting depends only on the keys before it, so `wav.scp` and `utt2spk` sort alike |
| `PrepareData.ParseKey` | local/prepare_data.py:127 | the unpacking succeeds exactly when the key has one underscore, and then the key is `speaker_local`; otherwise it reports the number of pieces |
| `PrepareData.ParseKeyRoundTrip` | local/prepare_data.py:127 | every `speaker_local` whose parts have no underscore unpacks back into those parts |
| `PrepareData.ReplacedKeyIsId` | local/prepare_data.py:100 | `key.replace("_", "-")` is the utterance id `speaker-local` wherever the key unpacks |
| `PrepareData.Collect` | local/prepare_data.py:97-103 | the loop gives one record per line, in order, exactly when every line is accepted; otherwise it reports the first refused line and its fault |
| `PrepareData.TextLine` | local/prepare_data.py:99-103 | one `text` line; its contract is stated by `TextLineShape` |
| `PrepareData.WavRecord` | local/prepare_data.py:127-128 | the `wav.scp` format string, whose path half is `AudioPath`; its contract is stated by `WavRecordShape` |
| `PrepareData.WavLine` | local/prepare_data.py:126-128 | one `wav.scp` line; its contract is stated by `WavLineShape` |
| `PrepareData.Utt2SpkRecord` | local/prepare_data.py:163 | the `utt2spk` format string; its contract is stated by `Utt2SpkRecordShape` |
| `PrepareData.Utt2SpkLine` | local/prepare_data.py:162-164 | one `utt2spk` line; its contract is stated by `Utt2SpkLineShape` |
| `PrepareData.TextLineShape` | local/prepare_data.py:99-102 | a `text` line exists exactly for a non-blank line; it is the key with `_` made `-`, one space, and a lower-case single-spaced transcript of the remaining tokens |
| `PrepareData.WavLineShape` | local/prepare_data.py:126-128 | a `wav.scp` line exists exactly when the key has one underscore; its fields are `speaker-local` and `./audio/<split>/speaker/local.wav` |
| `PrepareData.Utt2SpkLineShape` | local/prepare_data.py:162-164 | an `utt2spk` line exists exactly when the key has one underscore; its fields are `speaker-local` and the speaker |
| `PrepareData.WavRecordShape` | local/prepare_data.py:127 | a `wav.scp` record of whitespace-free parts splits into exactly the id and the audio path, has the id as first field, and holds no newline |
| `PrepareData.Utt2SpkRecordShape` | local/prepare_data.py:163 | an `utt2spk` record of whitespace-free parts splits into the id and the speaker (the id alone for a blank speaker), has the id as first field, and holds no newline |
| `PrepareData.SortedContentSameKeys` | local/prepare_data.py:132-133 | two record lists with the same first fields line by line give sorted files with the same first fields line by line |
| `PrepareData.UtteranceIdAgrees` | local/prepare_data.py:100 | where a manifest line has a `wav.scp` line it also has `text` and `utt2spk` lines, and all three start with the same utterance id |
| `PrepareData.TextFile` | local/prepare_data.py:95-105 | the content of `text`; its contract is stated by `TextFileSpec` |
| `PrepareData.WavScpFile` | local/prepare_data.py:122-133 | the content of `wav.scp`; its contract is stated by `WavScpFileSpec` |
| `PrepareData.Utt2SpkFile` | local/prepare_data.py:158-169 | the content of `utt2spk`; its contract is stated by `Utt2SpkFileSpec` |
| `PrepareData.WavRecords` | local/prepare_data.py:124-129 | the `output` list of `_make_sub_wav`'s loop; its contract is stated by `WavScpFileSpec` |
| `PrepareData.Utt2SpkRecords` | local/prepare_data.py:160-165 | the `output` list of `_make_sub_utt2spk`'s loop; its contract is stated by `Utt2SpkFileSpec` |
| `PrepareData.SortedContent` | local/prepare_data.py:132-133 | `"\n".join(sorted(output, key=...)) + "\n"`, shared by `wav.scp` and `utt2spk` (also local/prepare_data.py:168-169); its contract is stated by `SortedContentSpec` |
| `PrepareData.TextFileSpec` | local/prepare_data.py:95-105 | `text` has one line per manifest line in manifest order and no final newline; it exists exactly when no line is blank, else the first blank line is reported |
| `PrepareData.SortedContentSpec` | local/prepare_data.py:132-133 | the sorted content always ends in "\n" (it is "\n" for no records); its lines are the records sorted stably by first field |
| `PrepareData.SortedFileSpec` | local/prepare_data.py:124-133 | a sorted file of per-line records ends in "\n" and holds the records, sorted stably by first field |
| `PrepareData.WavScpFileSpec` | local/prepare_data.py:121-133 | `wav.scp` exists exactly when every key has one underscore, else the first bad line is reported; it is the per-line records sorted stably by utterance id, ending in "\n" |
| `PrepareData.Utt2SpkFileSpec` | local/prepare_data.py:157-169 | `utt2spk` exists exactly when every key has one underscore, else the first bad line is reported; it is the per-line records sorted stably by utterance id, ending in "\n" |
| `PrepareData.ArtifactsAgree` | local/prepare_data.py:124-133 | when `wav.scp` exists so do `text` and `utt2spk`, and the ids of `wav.scp` and `utt2spk`, line by line, are those of `text` sorted by id |
| `PrepareData.MakeSubText` | local/prepare_data.py:90-106 | the loop builds exactly `TextFile` of the manifest content |
| `PrepareData.MakeSubWav` | local/prepare_data.py:117-135 | the loop and sort build exactly `WavScpFile` of the manifest content |
| `PrepareData.MakeSubUtt2Spk` | local/prepare_data.py:153-171 | the loop and sort build exactly `Utt2SpkFile` of the manifest content |
| `PrepareData.Stem` | local/prepare_data.py:79 | `filename.split(".")[0]` is the prefix of the name up to, not including, its first dot |
| `PrepareData.RenamedAudio` | local/prepare_data.py:79-82 | renaming succeeds exactly when the stem has one underscore; the new name is the local id plus `.wav`, the local id holding no `_` or `.` |
| `PrepareData.RenamedAudioRoundTrip` | local/prepare_data.py:79-82 | `speaker_local` with any extension is renamed `local.wav` |
| `PrepareData.RenamedAudioRejectsRenamed` | local/prepare_data.py:78-80 | a renamed file cannot be renamed again, so a second run over an already relocated tree stops with an unpacking error |
| `PrepareData.AudioPathOfRenamed` | local/prepare_data.py:82 | for a key without a dot, the file `key.wav` in the speaker directory is renamed to the last part of the path `wav.scp` gives for that key |
| `PrepareData.RenamedAudioCutsAtDot` | local/prepare_data.py:79-82 | a local id with a dot is cut at its first dot: `speaker_local.wav` is renamed to the part of the local id before that dot plus `.wav` |
| `PrepareData.DottedLocalMissesAudioPath` | local/prepare_data.py:79-82 | for a key whose local id holds a dot, the rename of `key.wav` never gives the file name that ends the key's `wav.scp` path |
| `PrepareData.DottedKeyAudioPath` | local/prepare_data.py:128 | for the key `S_1.x`, `wav.scp` names `./audio/train/S/1.x.wav` |
| `PrepareData.DottedKeyRenamed` | local/prepare_data.py:79-82 | the file `S_1.x.wav` is renamed `1.wav` |
| `PrepareData.PlanMove` | local/prepare_data.py:79-82 | the `mv` issued for one file; its contract is stated through `RenamedAudio` and `RenameSpeakerFiles` |
| `PrepareData.RenameSpeakerFiles` | local/prepare_data.py:78-82 | the loop issues exactly the planned moves, in listing order; on a bad name it stops there, after the moves of the names before it |

## Left out

- Directory scaffolding with `mkdir -p` (local/prepare_data.py:51-58): shell side effects.
- The recursive copy of each speaker directory and the outer loops over splits and speakers (local/prepare_data.py:69-76): filesystem I/O. The directory listing is a parameter of `RenameSpeakerFiles`, in whatever order `os.listdir` returns it.
- The effect of each `mv` (local/prepare_data.py:82): only the moves are computed. Two files that rename to the same name (same local id, different extensions) overwrite each other on disk, which the model does not follow.
- Reading `prompts.txt` and writing `text`, `wav.scp` and `utt2spk` (local/prepare_data.py:94, 106, 121, 134-135, 157, 170-171). The builders take and return contents. The output paths are not modelled: `text` is written under `processed_dir`, while `wav.scp` and `utt2spk` go to `data/<split>/`.
- `_make_spk2gender` (local/prepare_data.py:140-146): a verbatim copy of `genders.txt`, with no logic.
- The constructor's fixed call sequence, its banner, the per-split calls of each builder for `test` and `train`, the argparse entry point and the unused numpy import (local/prepare_data.py:19, 25-44, 108-109, 137-138, 173-174, 177-186).
- `Strings.SplitLines`: only "\n" is a line boundary. The builders take the manifest content after text-mode reading (local/prepare_data.py:94, 121, 157), which has already turned "\r" and "\r\n" into "\n". Python's `splitlines()` also breaks at "\v", "\f", "\x1c"-"\x1e", "\x85", U+2028 and U+2029, which the model does not.
- `Strings.LowerChar`: only ASCII, Latin-1 and the Vietnamese capitals (Ă Đ Ĩ Ũ Ơ Ư and U+1EA0-U+1EF8) are lower-cased. Python's full Unicode `lower()` maps more characters, and some of them to several characters; the model leaves those unchanged.
- The text of the Python exceptions: a `Fault` records which exception is raised and on what, not its message.
- Lone surrogate code points, which a Python `str` may hold and a Dafny `char` cannot. Otherwise Python compares `str` values by code point, and so does `LexLe`.
