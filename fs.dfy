/** A directory tree as the two drone scripts see it through `os.listdir`,
    `os.path.isdir`, `os.path.isfile` and `os.rename`. */
module Fs {
  import opened Wrappers

  /** A directory keeps the order in which `os.listdir` returns its names
      beside the entries themselves. */
  datatype Node =
    | File(content: seq<Byte>)
    | Dir(names: seq<string>, children: map<string, Node>)

  /** No name occurs twice. */
  predicate Distinct(names: seq<string>) {
    forall i, j :: 0 <= i < j < |names| ==> names[i] != names[j]
  }

  /** The names a directory lists are exactly its entries, each once. */
  predicate Listed(d: Node) {
    d.Dir? && Distinct(d.names) && d.children.Keys == set n | n in d.names
  }

  function Without(names: seq<string>, x: string): (r: seq<string>)
    ensures forall n :: n in r <==> n in names && n != x
    ensures |r| <= |names|
  {
    if names == [] then []
    else if names[0] == x then Without(names[1..], x)
    else [names[0]] + Without(names[1..], x)
  }

  /** `os.rename(src, dst)` inside one directory, with POSIX semantics: an
      existing target is replaced (a directory only by a directory, and only
      when empty), and renaming a name onto itself does nothing. */
  function Rename(d: Node, src: string, dst: string): (r: Result<Node>)
    requires d.Dir?
    ensures src !in d.children ==> r == Raise(FileNotFoundError)
    ensures r.Ok? ==> r.value.Dir?
    ensures r.Ok? && src != dst ==>
      && r.value.children == (d.children - {src})[dst := d.children[src]]
    ensures r.Ok? && src == dst ==> r.value == d
    ensures src in d.children && d.children[src].File? && (dst !in d.children || d.children[dst].File?) ==> r.Ok?
    ensures src in d.children && dst !in d.children ==> r.Ok?
  {
    if src !in d.children then Raise(FileNotFoundError)
    else if src == dst then Ok(d)
    else
      var s := d.children[src];
      if dst in d.children then
        var t := d.children[dst];
        if s.File? && t.Dir? then Raise(IsADirectoryError)
        else if s.Dir? && t.File? then Raise(NotADirectoryError)
        else if s.Dir? && t.Dir? && t.children != map[] then Raise(DirectoryNotEmpty)
        else Ok(Dir(Without(d.names, src), (d.children - {src})[dst := s]))
      else Ok(Dir(Without(d.names, src) + [dst], (d.children - {src})[dst := s]))
  }

  /** A rename only moves an entry, possibly over another: every entry of the
      result was an entry before. */
  lemma RenameMoves(d: Node, src: string, dst: string)
    requires d.Dir? && Rename(d, src, dst).Ok?
    ensures Rename(d, src, dst).value.children.Values <= d.children.Values
  {
    var c := Rename(d, src, dst).value.children;
    forall v | v in c.Values ensures v in d.children.Values {
      var k :| k in c && c[k] == v;
      if k == dst { assert d.children[src] == v; } else { assert d.children[k] == v; }
    }
  }
}
