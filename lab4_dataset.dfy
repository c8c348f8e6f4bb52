/**
 * MSCDataset.__init__ of Lab4/msc_dataset_lab4.py: the split folder names,
 * the choice of the data folder among three candidate locations, and the
 * fall back to a flat listing of root.
 */
module Lab4Dataset {
  import opened Wrappers
  import opened SpeechCommands

  /** split_mapping */
  const SplitMapping: map<string, string> :=
    map["training" := "msc-train", "validation" := "msc-val", "testing" := "msc-test"]

  /** The locations tried for a known split, in order: /tmp/<m>,
      root/tmp/<m>, root/<m>. */
  function Candidates(root: string, folderName: string): (c: seq<string>)
    ensures |c| == 3
    ensures EndsWith(c[0], folderName) && EndsWith(c[1], folderName) && EndsWith(c[2], folderName)
  {
    var absTmp := Join("/tmp", folderName);
    var relTmp := Join(Join(root, "tmp"), folderName);
    var rootFolder := Join(root, folderName);
    [absTmp, relTmp, rootFolder]
  }

  /** The first existing path of paths, or fallback if none exists. */
  function FirstExisting(fs: FileSystem, paths: seq<string>, fallback: string): (p: string)
    ensures (forall i :: 0 <= i < |paths| ==> !fs.Exists(paths[i])) ==> p == fallback
    ensures forall k ::
              0 <= k < |paths| && fs.Exists(paths[k]) && (forall i :: 0 <= i < k ==> !fs.Exists(paths[i])) ==> p == paths[k]
    decreases |paths|
  {
    if paths == [] then fallback
    else if fs.Exists(paths[0]) then paths[0]
    else
      var p := FirstExisting(fs, paths[1..], fallback);
      assert forall k :: 1 <= k < |paths| ==> paths[k] == paths[1..][k - 1];
      p
  }

  /** data_folder: the if/elif chain over the candidates of a known split,
      and root for any other split. */
  function DataFolder(root: string, split: string, fs: FileSystem): (folder: string)
    ensures split !in SplitMapping ==> folder == root
    ensures split in SplitMapping ==> folder == FirstExisting(fs, Candidates(root, SplitMapping[split]), root)
  {
    if split in SplitMapping then
      var absTmpFolder := Join("/tmp", SplitMapping[split]);
      var relTmpFolder := Join(Join(root, "tmp"), SplitMapping[split]);
      var rootFolder := Join(root, SplitMapping[split]);
      var candidates := Candidates(root, SplitMapping[split]);
      assert candidates[1..] == [relTmpFolder, rootFolder] && candidates[1..][1..] == [rootFolder];
      assert FirstExisting(fs, [rootFolder], root) == if fs.Exists(rootFolder) then rootFolder else root;
      if fs.Exists(absTmpFolder) then absTmpFolder
      else if fs.Exists(relTmpFolder) then relTmpFolder
      else if fs.Exists(rootFolder) then rootFolder
      else root
    else
      root
  }

  /** The samples of the dataset are listed from data_folder when it is a
      directory, and from root otherwise. */
  function ListedFolder(root: string, split: string, fs: FileSystem): (folder: string)
    ensures fs.IsDir(DataFolder(root, split, fs)) ==> folder == DataFolder(root, split, fs)
    ensures !fs.IsDir(DataFolder(root, split, fs)) ==> folder == root
  {
    var dataFolder := DataFolder(root, split, fs);
    if fs.Exists(dataFolder) && fs.IsDir(dataFolder) then dataFolder else root
  }

  /** MSCDataset(root, classes, split): fails only where the flat branch
      lists a root that is not a directory; otherwise the samples are the
      qualifying names of the listed folder, in listing order. */
  method Load(fs: FileSystem, root: string, classes: seq<string>, split: string := "training") returns (r: Result<Dataset, OsError>)
    ensures var listed := ListedFolder(root, split, fs);
      && (r.Failure? <==> !fs.IsDir(listed))
      && (r.Failure? ==> listed == root && r == Failure(fs.ListDir(root).error))
      && (r.Success? ==>
            var names := Selected(fs.dirs[listed], classes);
            && Valid(r.value)
            && r.value.root == root && r.value.classes == classes && r.value.split == split
            && r.value.labelToIdx == IndexMap(classes)
            && Len(r.value) == |names|
            && forall k :: 0 <= k < |names| ==> r.value.samples[k] == SampleFor(listed, names[k]))
  {
    var labelToIdx := IndexMap(classes);
    var dataFolder := DataFolder(root, split, fs);
    var samples: seq<Sample>;
    if fs.Exists(dataFolder) && fs.IsDir(dataFolder) {
      samples := CollectSamples(dataFolder, fs.ListDir(dataFolder).value, classes);
    } else {
      var listing := fs.ListDir(root);
      if listing.Failure? {
        return Failure(listing.error);
      }
      samples := CollectSamples(root, listing.value, classes);
    }
    r := Success(Dataset(root, classes, split, labelToIdx, samples));
  }
}
