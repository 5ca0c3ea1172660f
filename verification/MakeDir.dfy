/** The directory cache of GNU make (`dir.c`). */
module MakeDir {
  import opened Wrappers

  // -------------------------------------------------------------------------
  // Directories as they are
  // -------------------------------------------------------------------------

  /** Device and inode number. */
  datatype Inode = Inode(dev: nat, ino: nat)

  datatype Entry = Entry(name: string, genuine: bool)

  /** What `stat` answers for a name, and what can be read from the directories that can be opened. */
  datatype FileSystem = FileSystem(stat: map<string, Inode>, listing: map<Inode, seq<Entry>>)

  function Names(entries: seq<Entry>): set<string> {
    set i | 0 <= i < |entries| && entries[i].genuine :: entries[i].name
  }

  /** Whether there is such a file, found by listing the whole directory; the empty name is the directory. */
  predicate Exists(fs: FileSystem, dir: string, file: string) {
    && dir in fs.stat && fs.stat[dir] in fs.listing
    && (file == "" || Lists(fs.listing[fs.stat[dir]], file))
  }

  predicate Lists(entries: seq<Entry>, file: string) {
    exists i :: 0 <= i < |entries| && entries[i].genuine && entries[i].name == file
  }

  lemma NamesListed(entries: seq<Entry>, file: string)
    ensures file in Names(entries) <==> Lists(entries, file)
  {
  }

  lemma NamesOneMore(entries: seq<Entry>, p: nat)
    requires p < |entries|
    ensures Names(entries[..p + 1]) == Names(entries[..p]) + if entries[p].genuine then {entries[p].name} else {}
  {
    var more, less := entries[..p + 1], entries[..p];
    assert forall i :: 0 <= i < p ==> more[i] == less[i];
    assert more[p] == entries[p];
    forall n | n in Names(less) ensures n in Names(more) {
      var i :| 0 <= i < p && less[i].genuine && less[i].name == n;
      assert more[i].name == n;
    }
  }

  lemma NamesSoFar(entries: seq<Entry>, p: nat)
    requires p <= |entries|
    ensures Names(entries[..p]) <= Names(entries)
    ensures p == |entries| ==> Names(entries[..p]) == Names(entries)
    ensures Names(entries[..0]) == {}
  {
    assert entries[..|entries|] == entries;
    forall n | n in Names(entries[..p]) ensures n in Names(entries) {
      var i :| 0 <= i < p && entries[..p][i].genuine && entries[..p][i].name == n;
      assert entries[i].name == n;
    }
  }

  // -------------------------------------------------------------------------
  // The cache
  // -------------------------------------------------------------------------

  const MAX_OPEN_DIRECTORIES := 10

  /** The names read so far, unless the directory could not be opened, and how far the open stream is. */
  datatype Contents = Contents(files: Option<set<string>>, stream: Option<nat>)

  /** The names are those in front of the stream, or all when it is closed. */
  predicate Faithful(fs: FileSystem, id: Inode, c: Contents) {
    if id !in fs.listing then c == Contents(None, None)
    else
      && c.files.Some?
      && (c.stream.Some? ==> c.stream.value <= |fs.listing[id]| && c.files.value == Names(fs.listing[id][..c.stream.value]))
      && (c.stream.None? ==> c.files.value == Names(fs.listing[id]))
  }

  predicate AllFaithful(fs: FileSystem, contents: map<Inode, Contents>) {
    forall id :: id in contents ==> Faithful(fs, id, contents[id])
  }

  function Open(contents: map<Inode, Contents>): set<Inode> {
    set id | id in contents && contents[id].stream.Some?
  }

  predicate Known(fs: FileSystem, contents: map<Inode, Contents>, directories: map<string, Option<Inode>>) {
    forall d :: d in directories ==>
      && directories[d] == (if d in fs.stat then Some(fs.stat[d]) else None)
      && (directories[d].Some? ==> directories[d].value in contents)
  }

  lemma OpenUpdated(contents: map<Inode, Contents>, id: Inode, c: Contents)
    ensures Open(contents[id := c]) == if c.stream.Some? then Open(contents) + {id} else Open(contents) - {id}
  {
  }

  class DirectoryCache {
    const fs: FileSystem
    var directories: map<string, Option<Inode>>
    var contents: map<Inode, Contents>
    var openDirectories: nat

    ghost predicate Valid()
      reads this
    {
      && AllFaithful(fs, contents) && Known(fs, contents, directories)
      && openDirectories == |Open(contents)|
      && openDirectories < MAX_OPEN_DIRECTORIES
    }

    constructor (fs: FileSystem)
      ensures Valid() && this.fs == fs && directories == map[]
    {
      this.fs := fs;
      directories, contents, openDirectories := map[], map[], 0;
      new;
      assert Open(contents) == {};
    }

    /**
     `dir_contents_file_exists_p`: looks for a name among those read so far and reads on until it turns up;
     without a name, reads everything.
     */
    method ContentsFileExists(id: Inode, file: Option<string>) returns (found: bool)
      requires id in contents && AllFaithful(fs, contents) && openDirectories == |Open(contents)|
      modifies this
      ensures AllFaithful(fs, contents) && openDirectories == |Open(contents)|
      ensures contents.Keys == old(contents.Keys) && directories == old(directories)
      ensures Open(contents) <= old(Open(contents)) && (file.None? ==> id !in Open(contents))
      ensures file.Some? ==> (found <==> id in fs.listing && (file.value == "" || file.value in Names(fs.listing[id])))
    {
      hide Names, Open, AllFaithful;
      var c := contents[id];
      assert Faithful(fs, id, c) by { OneFaithful(fs, contents, id); }
      OpenMember(contents, id);
      if c.files.None? {
        return false;
      }
      ghost var l := fs.listing[id];
      if c.stream.Some? { NamesSoFar(l, c.stream.value); }
      if file.Some? {
        if file.value == "" || file.value in c.files.value {
          return true;
        }
      }
      if c.stream.None? {
        return false;
      }
      found := ReadFurther(id, file);
    }

    method ReadFurther(id: Inode, file: Option<string>) returns (found: bool)
      requires id in contents && AllFaithful(fs, contents) && openDirectories == |Open(contents)|
      requires id in fs.listing && contents[id].stream.Some?
      requires file.Some? ==> file.value !in contents[id].files.value
      modifies this
      ensures AllFaithful(fs, contents) && openDirectories == |Open(contents)|
      ensures contents.Keys == old(contents.Keys) && directories == old(directories)
      ensures Open(contents) <= old(Open(contents)) && (file.None? ==> id !in Open(contents))
      ensures file.Some? ==> (found <==> file.value in Names(fs.listing[id]))
    {
      hide Names, Open, AllFaithful;
      var l := fs.listing[id];
      ghost var before := contents;
      assert Faithful(fs, id, contents[id]) by { OneFaithful(fs, contents, id); }
      OpenMember(contents, id);
      var p := contents[id].stream.value;
      var files := contents[id].files.value;
      NamesSoFar(l, p);
      found := false;
      while p < |l| && !found
        invariant p <= |l| && files == Names(l[..p])
        invariant contents == before[id := Contents(Some(files), Some(p))]
        invariant directories == old(directories) && openDirectories == old(openDirectories)
        invariant file.Some? ==> (found <==> file.value in files)
        invariant file.None? ==> !found
        decreases |l| - p, !found
      {
        var d := l[p];
        NamesOneMore(l, p);
        p := p + 1;
        if d.genuine {
          files := files + {d.name};
          found := file.Some? && d.name == file.value;
        }
        contents := contents[id := Contents(Some(files), Some(p))];
      }
      NamesSoFar(l, p);
      var stream: Option<nat> := if found then Some(p) else None;
      if !found {
        openDirectories := openDirectories - 1;
        contents := contents[id := Contents(Some(files), None)];
      }
      assert contents == before[id := Contents(Some(files), stream)];
      OpenUpdated(before, id, Contents(Some(files), stream));
      FaithfulUpdated(fs, before, id, Contents(Some(files), stream));
    }

    /** `find_directory`: the contents of a directory, opened if its inode has not been seen before. */
    method FindDirectory(name: string) returns (c: Option<Inode>)
      requires Valid()
      modifies this
      ensures Valid() && name in directories && c == directories[name]
    {
      hide Names, Open, AllFaithful;
      if name in directories {
        return directories[name];
      }
      if name !in fs.stat {
        directories := directories[name := None];
        return None;
      }
      var id := fs.stat[name];
      if id !in contents {
        Enter(id);
      }
      directories := directories[name := Some(id)];
      return Some(id);
    }

    /** A directory not seen before: opened if possible, and read at once if too many are open. */
    method Enter(id: Inode)
      requires Valid() && id !in contents
      modifies this
      ensures Valid() && contents.Keys == old(contents.Keys) + {id} && directories == old(directories)
    {
      hide Names, AllFaithful, Open, Faithful, Known;
      var stream: Option<nat> := if id in fs.listing then Some(0) else None;
      var c := Contents(if stream.Some? then Some({}) else None, stream);
      JustOpened(fs, id);
      OpenUpdated(contents, id, c);
      OpenMember(contents[id := c], id);
      NotOpen(contents, id);
      FaithfulUpdated(fs, contents, id, c);
      KnownGrows(fs, contents, contents[id := c], directories);
      contents := contents[id := c];
      if stream.Some? {
        openDirectories := openDirectories + 1;
        if openDirectories == MAX_OPEN_DIRECTORIES {
          ghost var before := contents;
          var found := ContentsFileExists(id, None);
          Fewer(Open(contents), Open(before), id);
          KnownGrows(fs, before, contents, directories);
        }
      }
    }

    /** `dir_file_exists_p`. */
    method DirFileExists(dir: string, file: string) returns (found: bool)
      requires Valid()
      modifies this
      ensures Valid() && (found <==> Exists(fs, dir, file))
    {
      hide Names, Lists, AllFaithful;
      var c := FindDirectory(dir);
      found := false;
      if c.Some? {
        if c.value in fs.listing { NamesListed(fs.listing[c.value], file); }
        ghost var open := Open(contents);
        found := ContentsFileExists(c.value, Some(file));
        NotMore(Open(contents), open);
      }
    }
  }

  /** Any sequence of questions, about any directories under any names, is answered as by full listings. */
  method Answers(fs: FileSystem, questions: seq<(string, string)>) returns (answers: seq<bool>)
    ensures |answers| == |questions|
    ensures forall i :: 0 <= i < |questions| ==> (answers[i] <==> Exists(fs, questions[i].0, questions[i].1))
  {
    hide Exists;
    var cache := new DirectoryCache(fs);
    answers := [];
    for k := 0 to |questions|
      invariant cache.Valid() && fresh(cache) && cache.fs == fs && |answers| == k
      invariant forall i :: 0 <= i < k ==> (answers[i] <==> Exists(fs, questions[i].0, questions[i].1))
    {
      var found := cache.DirFileExists(questions[k].0, questions[k].1);
      answers := answers + [found];
    }
  }

  lemma OneFaithful(fs: FileSystem, contents: map<Inode, Contents>, id: Inode)
    requires AllFaithful(fs, contents) && id in contents
    ensures Faithful(fs, id, contents[id])
  {
  }

  lemma OpenMember(contents: map<Inode, Contents>, id: Inode)
    requires id in contents
    ensures id in Open(contents) <==> contents[id].stream.Some?
  {
  }

  lemma NotOpen(contents: map<Inode, Contents>, id: Inode)
    requires id !in contents
    ensures id !in Open(contents)
  {
  }

  lemma JustOpened(fs: FileSystem, id: Inode)
    ensures Faithful(fs, id, if id in fs.listing then Contents(Some({}), Some(0)) else Contents(None, None))
  {
    if id in fs.listing { NamesSoFar(fs.listing[id], 0); }
  }

  lemma KnownGrows(fs: FileSystem, a: map<Inode, Contents>, b: map<Inode, Contents>, directories: map<string, Option<Inode>>)
    requires Known(fs, a, directories) && a.Keys <= b.Keys
    ensures Known(fs, b, directories)
  {
    assert forall id :: id in a ==> id in a.Keys && id in b.Keys;
  }

  lemma FaithfulUpdated(fs: FileSystem, contents: map<Inode, Contents>, id: Inode, c: Contents)
    requires AllFaithful(fs, contents) && Faithful(fs, id, c)
    ensures AllFaithful(fs, contents[id := c])
  {
  }

  lemma NotMore<T>(a: set<T>, b: set<T>)
    requires a <= b
    ensures |a| <= |b|
  {
    var rest := b - a;
    assert b == a + rest;
  }

  lemma Fewer<T>(a: set<T>, b: set<T>, x: T)
    requires a <= b - {x} && x in b
    ensures |a| < |b|
  {
    NotMore(a, b - {x});
    assert b == (b - {x}) + {x};
  }
}
