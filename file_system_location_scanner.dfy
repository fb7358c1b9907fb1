/**
 * Finding the resources under a classpath location that lies in the file system. The
 * file system is a tree of entries; each entry carries the decoded path of its URL,
 * whether it can be read, whether it is a directory, whether listFiles gives a listing
 * (it returns null otherwise, which the scanner does not guard against) and the entries
 * listed. The resource name of a file is its path with the classpath root cut off.
 */
module FileSystemLocationScanner {
  import opened Wrappers
  import opened JavaStrings

  datatype FileEntry = FileEntry(path: string, readable: bool, isDirectory: bool, listable: bool, children: seq<FileEntry>)

  /** The exceptions the scan can end in. */
  datatype ScanError =
    | LocationLongerThanUrl(location: string, locationUrl: string)   // substring with a negative end
    | ListingFailed(folder: string)                                  // iterating over a null listing
    | OutsideRoot(path: string)                                      // substring past the end of a path

  /** The classpath root on disk: the URL without the location at its end, with a trailing '/'. */
  function ClassPathRoot(location: string, locationUrl: string): (r: Result<string, ScanError>)
    ensures r.Failure? <==> |location| > |locationUrl|
    ensures r.Success? ==> EndsWith(r.value, "/")
    ensures r.Success? ==> var cut := locationUrl[..|locationUrl| - |location|];
      r.value == (if EndsWith(cut, "/") then cut else cut + "/")
  {
    if |location| > |locationUrl| then Failure(LocationLongerThanUrl(location, locationUrl))
    else
      var classPathRootOnDisk := locationUrl[..|locationUrl| - |location|];
      if !EndsWith(classPathRootOnDisk, "/") then
        var r := classPathRootOnDisk + "/";
        assert r[|r| - 1..] == "/";
        Success(r)
      else Success(classPathRootOnDisk)
  }

  /** A root is only extended when it lacks the slash, and never beyond one character. */
  lemma ClassPathRootKeepsUrlPrefix(location: string, locationUrl: string)
    requires |location| <= |locationUrl|
    ensures var r := ClassPathRoot(location, locationUrl).value;
      var n := |locationUrl| - |location|;
      StartsWith(r, locationUrl[..n]) && n <= |r| <= n + 1
  {
    var n := |locationUrl| - |location|;
    var cut := locationUrl[..n];
    assert (cut + "/")[..n] == cut;
  }

  /** toResourceNameOnClasspath: the file path with the root's length cut off its front. */
  function ToResourceNameOnClasspath(classPathRootOnDisk: string, fileName: string): (r: Result<string, ScanError>)
    ensures r.Failure? <==> |fileName| < |classPathRootOnDisk|
    ensures r.Success? ==> |r.value| == |fileName| - |classPathRootOnDisk| && EndsWith(fileName, r.value)
    ensures r.Success? && StartsWith(fileName, classPathRootOnDisk) ==> fileName == classPathRootOnDisk + r.value
  {
    if |fileName| < |classPathRootOnDisk| then Failure(OutsideRoot(fileName))
    else Success(fileName[|classPathRootOnDisk|..])
  }

  /** Under the root, the resource name and the root make up the path again. */
  lemma ResourceNameRoundTrip(root: string, name: string)
    ensures ToResourceNameOnClasspath(root, root + name) == Success(name)
  {
    assert (root + name)[|root|..] == name;
  }

  /** What one entry contributes: nothing when unreadable, its tree when a directory, its name when a file. */
  function ScanEntry(root: string, file: FileEntry): (r: Result<set<string>, ScanError>)
    ensures !file.readable ==> r == Success({})
    decreases file, |file.children| + 2
  {
    if !file.readable then Success({})
    else if file.isDirectory then ScanFolder(root, file)
    else
      match ToResourceNameOnClasspath(root, file.path)
      case Failure(e) => Failure(e)
      case Success(name) => Success({name})
  }

  /** Two scans one after the other: the first exception, or the union. */
  function Then(a: Result<set<string>, ScanError>, b: Result<set<string>, ScanError>): (r: Result<set<string>, ScanError>)
    ensures r.Success? <==> a.Success? && b.Success?
    ensures r.Success? ==> r.value == a.value + b.value
    ensures a.Failure? ==> r == a
    ensures a.Success? && b.Failure? ==> r == b
  {
    match a
    case Failure(e) => Failure(e)
    case Success(x) =>
      match b
      case Failure(e) => Failure(e)
      case Success(y) => Success(x + y)
  }

  lemma ThenFromNothing(b: Result<set<string>, ScanError>)
    ensures Then(Success({}), b) == b
  {
    if b.Success? {
      assert {} + b.value == b.value;
    }
  }

  lemma ThenAssociative(x: set<string>, y: set<string>, c: Result<set<string>, ScanError>)
    ensures Then(Success(x), Then(Success(y), c)) == Then(Success(x + y), c)
  {
    if c.Success? {
      assert x + (y + c.value) == (x + y) + c.value;
    }
  }

  /** The folder's listed entries from index `i` on, left to right; the first exception ends the scan. */
  function ScanFrom(root: string, folder: FileEntry, i: nat): (r: Result<set<string>, ScanError>)
    requires i <= |folder.children|
    decreases folder, |folder.children| - i
  {
    if i == |folder.children| then Success({})
    else Then(ScanEntry(root, folder.children[i]), ScanFrom(root, folder, i + 1))
  }

  /** findResourceNamesFromFileSystem, as a value. */
  function ScanFolder(root: string, folder: FileEntry): (r: Result<set<string>, ScanError>)
    ensures !folder.listable ==> r == Failure(ListingFailed(folder.path))
    decreases folder, |folder.children| + 1
  {
    if !folder.listable then Failure(ListingFailed(folder.path)) else ScanFrom(root, folder, 0)
  }

  /**
   * findResourceNamesFromFileSystem: every readable file below the folder, reached
   * through readable directories, by its resource name.
   */
  method FindResourceNamesFromFileSystem(classPathRootOnDisk: string, scanRootLocation: string, folder: FileEntry)
    returns (r: Result<set<string>, ScanError>)
    ensures r == ScanFolder(classPathRootOnDisk, folder)
    decreases folder
  {
    if !folder.listable {
      return Failure(ListingFailed(folder.path));
    }
    var files := folder.children;
    var resourceNames: set<string> := {};
    var i := 0;
    ThenFromNothing(ScanFrom(classPathRootOnDisk, folder, 0));
    while i < |files|
      invariant 0 <= i <= |files|
      invariant ScanFolder(classPathRootOnDisk, folder) == Then(Success(resourceNames), ScanFrom(classPathRootOnDisk, folder, i))
    {
      var file := files[i];
      var found: Result<set<string>, ScanError> := Success({});
      if file.readable {
        if file.isDirectory {
          found := FindResourceNamesFromFileSystem(classPathRootOnDisk, scanRootLocation, file);
        } else {
          var name := ToResourceNameOnClasspath(classPathRootOnDisk, file.path);
          if name.Failure? {
            found := Failure(name.error);
          } else {
            found := Success({name.value});
          }
        }
      }
      assert found == ScanEntry(classPathRootOnDisk, file);
      if found.Failure? {
        return Failure(found.error);
      }
      ThenAssociative(resourceNames, found.value, ScanFrom(classPathRootOnDisk, folder, i + 1));
      resourceNames := resourceNames + found.value;
      i := i + 1;
    }
    assert Then(Success(resourceNames), Success({})) == Success(resourceNames) by {
      assert resourceNames + {} == resourceNames;
    }
    return Success(resourceNames);
  }

  /** findResourceNames: the root from the location and its URL, then the scan of the URL's folder. */
  method FindResourceNames(location: string, locationUrl: string, folder: FileEntry)
    returns (r: Result<set<string>, ScanError>)
    ensures |location| > |locationUrl| ==> r == Failure(LocationLongerThanUrl(location, locationUrl))
    ensures |location| <= |locationUrl| ==> r == ScanFolder(ClassPathRoot(location, locationUrl).value, folder)
  {
    var root := ClassPathRoot(location, locationUrl);
    if root.Failure? {
      return Failure(root.error);
    }
    r := FindResourceNamesFromFileSystem(root.value, location, folder);
  }

  // An independent description of what the scan finds.

  /** Every listing reached through readable directories exists, and every readable file lies under the root. */
  ghost predicate Scannable(root: string, folder: FileEntry)
    decreases folder, 0
  {
    folder.listable && forall i :: 0 <= i < |folder.children| ==> EntryScannable(root, folder.children[i])
  }

  ghost predicate EntryScannable(root: string, file: FileEntry)
    decreases file, 1
  {
    file.readable ==> if file.isDirectory then Scannable(root, file) else |file.path| >= |root|
  }

  /** The paths of the readable files below the folder, reached through readable directories. */
  ghost function Files(folder: FileEntry): set<string>
    decreases folder, 0
  {
    if !folder.listable then {}
    else set i, p | 0 <= i < |folder.children| && p in EntryFiles(folder.children[i]) :: p
  }

  ghost function EntryFiles(file: FileEntry): set<string>
    decreases file, 1
  {
    if !file.readable then {} else if file.isDirectory then Files(file) else {file.path}
  }

  /** The resource names of a set of paths. */
  ghost function Names(root: string, paths: set<string>): set<string> {
    set p | p in paths && |p| >= |root| :: p[|root|..]
  }

  /** The files of the entries from index `i` on. */
  ghost function FilesFrom(folder: FileEntry, i: nat): set<string>
    requires i <= |folder.children|
  {
    set k, p | i <= k < |folder.children| && p in EntryFiles(folder.children[k]) :: p
  }

  lemma FilesFromStep(folder: FileEntry, i: nat)
    requires i < |folder.children|
    ensures FilesFrom(folder, i) == EntryFiles(folder.children[i]) + FilesFrom(folder, i + 1)
  {
  }

  /**
   * The scan succeeds exactly when the tree is scannable, and then it finds the resource
   * names of exactly the readable files reached through readable directories.
   */
  lemma {:induction false} ScanFolderFindsFiles(root: string, folder: FileEntry)
    ensures ScanFolder(root, folder).Success? <==> Scannable(root, folder)
    ensures ScanFolder(root, folder).Success? ==> ScanFolder(root, folder).value == Names(root, Files(folder))
    decreases folder, |folder.children| + 1
  {
    if folder.listable {
      ScanFromFindsFiles(root, folder, 0);
      assert Files(folder) == FilesFrom(folder, 0);
    }
  }

  lemma {:induction false} ScanFromFindsFiles(root: string, folder: FileEntry, i: nat)
    requires i <= |folder.children|
    ensures ScanFrom(root, folder, i).Success? <==> forall k :: i <= k < |folder.children| ==> EntryScannable(root, folder.children[k])
    ensures ScanFrom(root, folder, i).Success? ==> ScanFrom(root, folder, i).value == Names(root, FilesFrom(folder, i))
    decreases folder, |folder.children| - i
  {
    if i < |folder.children| {
      ScanEntryFindsFiles(root, folder.children[i]);
      ScanFromFindsFiles(root, folder, i + 1);
      FilesFromStep(folder, i);
    }
  }

  lemma {:induction false} ScanEntryFindsFiles(root: string, file: FileEntry)
    ensures ScanEntry(root, file).Success? <==> EntryScannable(root, file)
    ensures ScanEntry(root, file).Success? ==> ScanEntry(root, file).value == Names(root, EntryFiles(file))
    decreases file, |file.children| + 2
  {
    if file.readable {
      if file.isDirectory {
        ScanFolderFindsFiles(root, file);
      } else if |file.path| >= |root| {
        assert Names(root, {file.path}) == {file.path[|root|..]};
      }
    }
  }
}
