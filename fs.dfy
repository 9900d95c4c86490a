/** The filesystem as the mail reader sees it: an immutable tree of directories and
    files. An entry that a directory listing reports as an error (and whose metadata
    cannot be read) is `Broken`; a directory that cannot be listed at all behaves, for
    both scans of the reader, like a listing that holds one `Broken` entry. Names in a
    directory are assumed distinct, as on a real filesystem. */
module Fs {
  import opened Wrappers
  import opened Text
  import MailParser

  /** A path as its components below the filesystem root. */
  type Path = seq<string>

  /** What reading and parsing a file yields. */
  datatype Contents =
    | Parsed(message: MailParser.Message)
    | Unparsable
    | ReadError(reason: string)

  datatype Node =
    | File(name: string, contents: Contents)
    | Dir(name: string, entries: seq<Node>)
    | Broken(name: string, reason: string)

  /** The text of the operating system's error for a path that does not exist. */
  const NotFoundText: string := "No such file or directory (os error 2)"
  /** The text of the operating system's error for reading a directory as a file. */
  const IsADirectoryText: string := "Is a directory (os error 21)"

  function Child(entries: seq<Node>, name: string): (r: Option<Node>)
    ensures r.Some? ==> r.value in entries && r.value.name == name
    ensures r.None? ==> forall n :: n in entries ==> n.name != name
  {
    if entries == [] then None
    else if entries[0].name == name then Some(entries[0])
    else Child(entries[1..], name)
  }

  /** The node at path `p` below `root`. */
  function Resolve(root: Node, p: Path): Option<Node>
    decreases |p|
  {
    if p == [] then Some(root)
    else
      match root
      case Dir(_, entries) =>
        (match Child(entries, p[0])
         case Some(n) => Resolve(n, p[1..])
         case None => None)
      case _ => None
  }

  /** `Path::exists` */
  predicate Exists(root: Node, p: Path) {
    var n := Resolve(root, p);
    n.Some? && !n.value.Broken?
  }

  /** `Path::is_dir` */
  predicate IsDir(root: Node, p: Path) {
    var n := Resolve(root, p);
    n.Some? && n.value.Dir?
  }

  /** `fs::read` followed by the parse. */
  function ReadFile(root: Node, p: Path): Result<Contents> {
    match Resolve(root, p)
    case None => Err(NotFoundText)
    case Some(Dir(_, _)) => Err(IsADirectoryText)
    case Some(Broken(_, reason)) => Err(reason)
    case Some(File(_, ReadError(reason))) => Err(reason)
    case Some(File(_, c)) => Ok(c)
  }

  /** `Path::display` of an absolute path. */
  function Display(p: Path): string {
    "/" + Join(p, "/")
  }
}
