/**
 * The parts of MSCDataset (Mini Speech Commands) that Lab4/msc_dataset_lab4.py
 * and HW2/msc_dataset.py share line for line: the label-to-index map, the
 * filename filter and the loop that collects samples, __len__, the
 * fixed-length framing of __getitem__, and label_to_int.
 *
 * The file system is a snapshot given as a value: the paths that exist and,
 * for each directory, what os.listdir returns for it. Waveforms are what the
 * audio loader returns for a path, given as a function.
 */
module SpeechCommands {
  import opened Wrappers

  /** Every waveform is framed to one second at 16 kHz. */
  const TargetLength := 16000

  /** The exceptions os.listdir raises. */
  datatype OsError = FileNotFound(path: string) | NotADirectory(path: string)

  /** A snapshot of the file system: plain files, and directories with their
      listings in os.listdir order. */
  datatype FileSystem = FileSystem(files: set<string>, dirs: map<string, seq<string>>)
  {
    /** os.path.exists */
    predicate Exists(path: string)
    {
      path in files || path in dirs
    }

    /** os.path.isdir */
    predicate IsDir(path: string)
    {
      path in dirs
    }

    /** os.listdir */
    function ListDir(path: string): (r: Result<seq<string>, OsError>)
      ensures r.Success? <==> IsDir(path)
    {
      if path in dirs then Success(dirs[path])
      else if path in files then Failure(NotADirectory(path))
      else Failure(FileNotFound(path))
    }
  }

  /** s ends with suffix. */
  predicate EndsWith(s: string, suffix: string)
  {
    |suffix| <= |s| && s[|s| - |suffix|..] == suffix
  }

  /** os.path.join for two components (posixpath). */
  function Join(a: string, b: string): (r: string)
    ensures EndsWith(r, b)
    ensures |b| > 0 && b[0] == '/' ==> r == b
    ensures (|b| == 0 || b[0] != '/') ==> a <= r
  {
    if |b| > 0 && b[0] == '/' then b
    else if a == [] || a[|a| - 1] == '/' then a + b
    else a + "/" + b
  }

  /** {label: idx for idx, label in enumerate(classes)}: later occurrences of
      a label overwrite earlier ones. */
  function IndexMap(classes: seq<string>): (m: map<string, int>)
    ensures forall c :: c in m <==> c in classes
    ensures forall c :: c in m ==> 0 <= m[c] < |classes| && classes[m[c]] == c
    decreases |classes|
  {
    if classes == [] then map[]
    else IndexMap(classes[..|classes| - 1])[classes[|classes| - 1] := |classes| - 1]
  }

  /** A label maps to its last position in classes. */
  lemma {:induction false} IndexMapIsLastOccurrence(classes: seq<string>)
    ensures forall i :: 0 <= i < |classes| ==> i <= IndexMap(classes)[classes[i]]
    decreases |classes|
  {
    if classes != [] {
      var init := classes[..|classes| - 1];
      IndexMapIsLastOccurrence(init);
      forall i | 0 <= i < |classes|
        ensures i <= IndexMap(classes)[classes[i]]
      {
        if i < |classes| - 1 && classes[i] != classes[|classes| - 1] {
          assert classes[i] == init[i];
        }
      }
    }
  }

  /** For distinct classes, label_to_idx[classes[i]] == i. */
  lemma IndexMapOfDistinct(classes: seq<string>)
    requires forall i, j :: 0 <= i < j < |classes| ==> classes[i] != classes[j]
    ensures forall i :: 0 <= i < |classes| ==> IndexMap(classes)[classes[i]] == i
  {
    IndexMapIsLastOccurrence(classes);
  }

  /** filename.endswith('.wav') */
  predicate EndsWithWav(name: string)
  {
    |name| >= 4 && name[|name| - 4..] == ".wav"
  }

  /** filename.split('_')[0] */
  function LabelPrefix(name: string): string
    decreases |name|
  {
    if name == [] || name[0] == '_' then [] else [name[0]] + LabelPrefix(name[1..])
  }

  /** The prefix is the longest start of the name without an underscore: the
      whole name, or the part up to its first underscore. */
  lemma {:induction false} LabelPrefixIsFirstField(name: string)
    ensures var p := LabelPrefix(name);
      && p <= name
      && (forall k :: 0 <= k < |p| ==> p[k] != '_')
      && (p == name || name[|p|] == '_')
    decreases |name|
  {
    if name != [] && name[0] != '_' {
      LabelPrefixIsFirstField(name[1..]);
    }
  }

  /** The filter of the collection loop. */
  predicate Qualifies(name: string, classes: seq<string>)
  {
    EndsWithWav(name) && LabelPrefix(name) in classes
  }

  /** The listed names the collection loop keeps, in listing order. */
  function Selected(listing: seq<string>, classes: seq<string>): seq<string>
    decreases |listing|
  {
    if listing == [] then []
    else
      var name := listing[|listing| - 1];
      Selected(listing[..|listing| - 1], classes) + (if Qualifies(name, classes) then [name] else [])
  }

  /** Exactly the qualifying names are kept, each as often as it is listed. */
  lemma {:induction false} SelectedKeepsQualifying(listing: seq<string>, classes: seq<string>)
    ensures forall name :: multiset(Selected(listing, classes))[name]
                             == if Qualifies(name, classes) then multiset(listing)[name] else 0
    ensures forall name :: name in Selected(listing, classes) <==> name in listing && Qualifies(name, classes)
    decreases |listing|
  {
    if listing != [] {
      var init, last := listing[..|listing| - 1], listing[|listing| - 1];
      SelectedKeepsQualifying(init, classes);
      assert listing == init + [last];
      assert multiset(listing) == multiset(init) + multiset{last};
      var sel := Selected(listing, classes);
      assert sel == Selected(init, classes) + (if Qualifies(last, classes) then [last] else []);
      forall name
        ensures multiset(sel)[name] == if Qualifies(name, classes) then multiset(listing)[name] else 0
      {
      }
      forall name
        ensures name in sel <==> name in listing && Qualifies(name, classes)
      {
        assert name in sel <==> multiset(sel)[name] > 0;
        assert name in listing <==> multiset(listing)[name] > 0;
      }
    }
  }

  /** An entry of self.samples: the file's path and its textual label. */
  datatype Sample = Sample(path: string, labelStr: string)

  /** The sample the collection loop records for a kept name. */
  function SampleFor(folder: string, name: string): Sample
  {
    Sample(Join(folder, name), LabelPrefix(name))
  }

  /** The for loop of __init__ over os.listdir(folder): one sample per kept
      name, in listing order, labelled by the name's prefix. */
  method CollectSamples(folder: string, listing: seq<string>, classes: seq<string>) returns (samples: seq<Sample>)
    ensures |samples| == |Selected(listing, classes)|
    ensures forall k :: 0 <= k < |samples| ==> samples[k] == SampleFor(folder, Selected(listing, classes)[k])
    ensures forall k :: 0 <= k < |samples| ==> samples[k].labelStr in classes
  {
    samples := [];
    for i := 0 to |listing|
      invariant |samples| == |Selected(listing[..i], classes)|
      invariant forall k :: 0 <= k < |samples| ==> samples[k] == SampleFor(folder, Selected(listing[..i], classes)[k])
      invariant forall k :: 0 <= k < |samples| ==> samples[k].labelStr in classes
    {
      var filename := listing[i];
      if EndsWithWav(filename) {
        var labelStr := LabelPrefix(filename);
        if labelStr in classes {
          var filePath := Join(folder, filename);
          samples := samples + [Sample(filePath, labelStr)];
        }
      }
      assert listing[..i + 1][..i] == listing[..i];
    }
    assert listing[..|listing|] == listing;
  }

  /** The framing of __getitem__: zero-pad a short waveform at its end, keep
      the first TargetLength frames of a long one. */
  function PadOrCrop(waveform: seq<real>): (r: seq<real>)
    ensures |r| == TargetLength
    ensures |waveform| <= TargetLength ==>
      r[..|waveform|] == waveform && forall i :: |waveform| <= i < TargetLength ==> r[i] == 0.0
    ensures |waveform| >= TargetLength ==> r == waveform[..TargetLength]
  {
    if |waveform| < TargetLength then waveform + seq(TargetLength - |waveform|, _ => 0.0)
    else if |waveform| > TargetLength then waveform[..TargetLength]
    else waveform
  }

  /** Framing an already framed waveform changes nothing. */
  lemma PadOrCropIdempotent(waveform: seq<real>)
    ensures PadOrCrop(PadOrCrop(waveform)) == PadOrCrop(waveform)
  {
  }

  /** An MSCDataset after __init__ (preprocess and download are not modelled). */
  datatype Dataset = Dataset(
    root: string,
    classes: seq<string>,
    split: string,
    labelToIdx: map<string, int>,
    samples: seq<Sample>)

  /** What __init__ establishes: the label map is built from classes and
      every collected label is one of the classes. */
  ghost predicate Valid(d: Dataset)
  {
    d.labelToIdx == IndexMap(d.classes)
    && forall k :: 0 <= k < |d.samples| ==> d.samples[k].labelStr in d.classes
  }

  /** __len__ */
  function Len(d: Dataset): nat
  {
    |d.samples|
  }

  /** What __getitem__ returns: the framed waveform and the integer label. */
  datatype Item = Item(x: seq<real>, y: int)

  /** The IndexError of self.samples[idx]. */
  datatype LookupError = IndexOutOfRange(index: int)

  /** __getitem__(idx), with Python's list indexing (negative indices count
      from the end); load stands for the audio loader. */
  function GetItem(d: Dataset, idx: int, load: string -> seq<real>): (r: Result<Item, LookupError>)
    requires Valid(d)
    ensures r.Success? <==> 0 <= idx + Len(d) && idx < Len(d)
    ensures r.Failure? ==> r.error == IndexOutOfRange(idx)
    ensures r.Success? ==>
      var s := d.samples[if idx < 0 then idx + Len(d) else idx];
      && r.value.x == PadOrCrop(load(s.path))
      && |r.value.x| == TargetLength
      && 0 <= r.value.y < |d.classes|
      && d.classes[r.value.y] == s.labelStr
      && r.value.y == LabelToInt(d, s.labelStr)
  {
    if -|d.samples| <= idx < |d.samples| then
      var s := d.samples[if idx < 0 then idx + |d.samples| else idx];
      Success(Item(PadOrCrop(load(s.path)), d.labelToIdx[s.labelStr]))
    else
      Failure(IndexOutOfRange(idx))
  }

  /** label_to_int: label_to_idx.get(label_str, -1). */
  function LabelToInt(d: Dataset, labelStr: string): (r: int)
    requires Valid(d)
    ensures r == -1 <==> labelStr !in d.classes
    ensures r != -1 ==> 0 <= r < |d.classes| && d.classes[r] == labelStr
    ensures forall j :: 0 <= j < |d.classes| && d.classes[j] == labelStr ==> j <= r
  {
    IndexMapIsLastOccurrence(d.classes);
    if labelStr in d.labelToIdx then d.labelToIdx[labelStr] else -1
  }
}
