/**
 * The string side of the path helpers: joining a directory and a file name,
 * taking the directory part of a full path, and the file-name part of the
 * running module's path. The module path itself (`GetModuleFileNameW`) is a
 * parameter here.
 */
module FileSystem {
  import opened Wrappers
  import opened Text

  /** The system path delimiter, a backslash. */
  const PathDelimiter: char := '\\'

  /** `getDirWithFile`: the directory, one delimiter, then the file name. */
  function DirWithFile(dir: string, file: string): string
  {
    dir + [PathDelimiter] + file
  }

  /** The three parts of a joined path can be read back at their positions. */
  lemma DirWithFileParts(dir: string, file: string)
    ensures var path := DirWithFile(dir, file);
      && |path| == |dir| + 1 + |file|
      && path[..|dir|] == dir && path[|dir|] == PathDelimiter && path[|dir| + 1..] == file
  {
    var path := DirWithFile(dir, file);
    assert path == dir + ([PathDelimiter] + file);
  }

  /**
   * `getDirWithoutFile`: the text before the last delimiter, or the empty text
   * when the path is empty or holds no delimiter.
   */
  function DirWithoutFile(fullPath: string): (dir: string)
    ensures PathDelimiter !in fullPath ==> dir == []
    ensures PathDelimiter in fullPath ==>
      && |dir| < |fullPath|
      && dir == fullPath[..|dir|]
      && fullPath[|dir|] == PathDelimiter
      && PathDelimiter !in fullPath[|dir| + 1..]
  {
    if fullPath == [] then []
    else
      match LastIndexOf(fullPath, PathDelimiter)
      case None => []
      case Some(i) => fullPath[..i]
  }

  /**
   * The name part of `getExecutableName`: the text after the last delimiter of the
   * module path, or the empty text when the path is empty or holds no delimiter.
   */
  function ExecutableName(modulePath: string): (name: string)
    ensures PathDelimiter !in name
    ensures PathDelimiter !in modulePath ==> name == []
    ensures PathDelimiter in modulePath ==> modulePath == DirWithoutFile(modulePath) + [PathDelimiter] + name
  {
    if modulePath == [] then []
    else
      match LastIndexOf(modulePath, PathDelimiter)
      case None => []
      case Some(i) =>
        assert modulePath == modulePath[..i] + [PathDelimiter] + modulePath[i + 1..];
        modulePath[i + 1..]
  }

  /** `getExecutableDirPath`: the directory part of the module path. */
  function ExecutableDirPath(modulePath: string): (dir: string)
    ensures PathDelimiter in modulePath ==> DirWithFile(dir, ExecutableName(modulePath)) == modulePath
    ensures PathDelimiter !in modulePath ==> dir == []
  {
    DirWithoutFile(modulePath)
  }

  /** Taking the directory of a joined path gives back the directory, when the file name holds no delimiter. */
  lemma DirWithoutFileOfDirWithFile(dir: string, file: string)
    requires PathDelimiter !in file
    ensures DirWithoutFile(DirWithFile(dir, file)) == dir
  {
    DirWithFileParts(dir, file);
  }

  /** Splitting a path at its last delimiter and joining the parts again gives the path back. */
  lemma DirWithFileOfParts(path: string)
    requires PathDelimiter in path
    ensures DirWithFile(DirWithoutFile(path), ExecutableName(path)) == path
  {
  }
}
