/**
 * MSCDataset.__init__ of HW2/msc_dataset.py: its split folder names, the
 * FileNotFoundError for a known split whose folder is missing, and no
 * samples when the data folder is not a directory.
 */
module Hw2Dataset {
  import opened Wrappers
  import opened SpeechCommands

  /** split_mapping */
  const SplitMapping: map<string, string> :=
    map["training" := "msc-training", "validation" := "msc-validation", "testing" := "msc-testing"]

  /** data_folder when no exception is raised: root/<m> for a known split,
      root for any other. */
  function DataFolder(root: string, split: string): (folder: string)
    ensures split !in SplitMapping ==> folder == root
    ensures split in SplitMapping ==>
      var m := SplitMapping[split];
      EndsWith(folder, m) && root <= folder
  {
    if split in SplitMapping then Join(root, SplitMapping[split]) else root
  }

  /** MSCDataset(root, classes, split): raises FileNotFoundError exactly for a
      known split whose folder does not exist; otherwise the samples are the
      qualifying names listed in the data folder, or none when it is not a
      directory. */
  method Load(fs: FileSystem, root: string, classes: seq<string>, split: string := "training") returns (r: Result<Dataset, OsError>)
    ensures var dataFolder := DataFolder(root, split);
      && (r.Failure? <==> split in SplitMapping && !fs.Exists(dataFolder))
      && (r.Failure? ==> r.error == FileNotFound(dataFolder))
      && (r.Success? ==>
            && Valid(r.value)
            && r.value.root == root && r.value.classes == classes && r.value.split == split
            && r.value.labelToIdx == IndexMap(classes)
            && (!fs.IsDir(dataFolder) ==> r.value.samples == [])
            && (fs.IsDir(dataFolder) ==>
                  var names := Selected(fs.dirs[dataFolder], classes);
                  && Len(r.value) == |names|
                  && forall k :: 0 <= k < |names| ==> r.value.samples[k] == SampleFor(dataFolder, names[k])))
  {
    var labelToIdx := IndexMap(classes);
    var dataFolder: string;
    if split in SplitMapping {
      dataFolder := Join(root, SplitMapping[split]);
      if !fs.Exists(dataFolder) {
        return Failure(FileNotFound(dataFolder));
      }
    } else {
      dataFolder := root;
    }
    var samples: seq<Sample> := [];
    if fs.Exists(dataFolder) && fs.IsDir(dataFolder) {
      samples := CollectSamples(dataFolder, fs.ListDir(dataFolder).value, classes);
    }
    r := Success(Dataset(root, classes, split, labelToIdx, samples));
  }
}
