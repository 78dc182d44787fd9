/** What a VM's descriptor table and the host's files amount to for the guest: its view is the
    private system of module PrivateFiles, with the local file where one exists and the shared
    original where none does. */
module FileTable {
  import opened Protocol
  import opened PrivateFiles
  import opened HostFiles

  datatype OpenFile = OpenFile(hostDescriptor: int, flags: int, name: Name, hostPath: Path, shared: bool)

  /** Guest names of the shared originals; fixed before the first VM starts. */
  type SharedFiles = map<Name, Path>

  type Files = map<Path, Bytes>
  type Descriptors = map<int, HostFile>
  type Table = map<int, OpenFile>

  ghost predicate SharedOk(shared: SharedFiles, files: Files) {
    forall n :: n in shared ==> ValidName(n) && shared[n].Elsewhere? && shared[n] in files
  }

  /** A descriptor still on a shared original is read-only and there is no local file of its name;
      any other is on the VM's own local file, in the mode its flags ask for. */
  ghost predicate FileOk(id: nat, shared: SharedFiles, files: Files, open: Descriptors, f: OpenFile) {
    && f.hostDescriptor in open && open[f.hostDescriptor].path == f.hostPath
    && ValidFlags(f.flags)
    && f.hostPath in files
    && if f.shared then
         && f.name in shared && f.hostPath == shared[f.name]
         && open[f.hostDescriptor].canRead && !open[f.hostDescriptor].canWrite
         && Local(id, f.name) !in files
       else
         && f.hostPath == Local(id, f.name)
         && open[f.hostDescriptor].canRead == CanRead(f.flags)
         && open[f.hostDescriptor].canWrite == CanWrite(f.flags)
  }

  /** One host descriptor per guest descriptor, all below the next one to be given out. */
  ghost predicate TableOk(id: nat, shared: SharedFiles, files: Files, open: Descriptors, t: Table, next: int) {
    && SharedOk(shared, files)
    && next >= 3
    && (forall d :: d in t ==> 3 <= d < next)
    && (forall d :: d in t ==> FileOk(id, shared, files, open, t[d]))
    && Distinct(t)
  }

  ghost predicate Distinct(t: Table) {
    forall d, e :: d in t && e in t && d != e ==> t[d].hostDescriptor != t[e].hostDescriptor
  }

  /** The host descriptors a table holds. */
  ghost function Owned(t: Table): set<int> {
    set d | d in t :: t[d].hostDescriptor
  }

  ghost function LocalNames(id: nat, files: Files): (s: set<Name>)
    ensures forall n :: n in s <==> Local(id, n) in files
  {
    var s := set p | p in files && p.Local? && p.vm == id :: p.name;
    assert forall n :: Local(id, n) in files ==> Local(id, n).name in s;
    s
  }

  ghost function ViewFiles(id: nat, shared: SharedFiles, files: Files): (m: map<Name, Bytes>)
    requires SharedOk(shared, files)
    ensures forall n :: n in m <==> Local(id, n) in files || n in shared
    ensures forall n :: n in m ==> m[n] == if Local(id, n) in files then files[Local(id, n)] else files[shared[n]]
  {
    map n | n in LocalNames(id, files) + shared.Keys ::
      if Local(id, n) in files then files[Local(id, n)] else files[shared[n]]
  }

  ghost function HandleOf(open: Descriptors, f: OpenFile): Handle {
    Handle(f.name, f.flags, if f.hostDescriptor in open then open[f.hostDescriptor].offset else 0)
  }

  ghost function ViewOpen(open: Descriptors, t: Table): map<int, Handle> {
    map d | d in t :: HandleOf(open, t[d])
  }

  ghost function ViewOf(id: nat, shared: SharedFiles, files: Files, open: Descriptors, t: Table, next: int): Private
    requires SharedOk(shared, files)
  {
    Private(ViewFiles(id, shared, files), ViewOpen(open, t), next)
  }

  lemma SameHandles(open: Descriptors, t: Table, open': Descriptors, t': Table)
    requires t.Keys == t'.Keys
    requires forall d :: d in t ==> HandleOf(open', t'[d]) == HandleOf(open, t[d])
    ensures ViewOpen(open', t') == ViewOpen(open, t)
  {
    forall d | d in t.Keys
      ensures d in t' && ViewOpen(open', t')[d] == ViewOpen(open, t)[d]
    {
      assert d in t'.Keys;
    }
    assert ViewOpen(open', t').Keys == t'.Keys == t.Keys == ViewOpen(open, t).Keys;
  }

  /** In the guest's view every descriptor has the content its host descriptor reads. */
  lemma ViewContent(id: nat, shared: SharedFiles, files: Files, open: Descriptors, t: Table, next: int, d: int)
    requires TableOk(id, shared, files, open, t, next) && d in t
    ensures var p := ViewOf(id, shared, files, open, t, next);
            && t[d].name in p.files && p.files[t[d].name] == files[t[d].hostPath]
            && p.open[d].offset == open[t[d].hostDescriptor].offset
            && WellFormed(p)
  {
    assert FileOk(id, shared, files, open, t[d]);
    var p := ViewOf(id, shared, files, open, t, next);
    forall e | e in p.open
      ensures 3 <= e < p.next && p.open[e].name in p.files
    {
      assert FileOk(id, shared, files, open, t[e]);
    }
  }

  // ----- how single changes show in the view

  /** Writing a local file, or creating one, is that change of the view and no other. */
  lemma LocalChange(id: nat, shared: SharedFiles, files: Files, name: Name, content: Bytes)
    requires SharedOk(shared, files)
    ensures var files' := files[Local(id, name) := content];
            SharedOk(shared, files') && ViewFiles(id, shared, files') == ViewFiles(id, shared, files)[name := content]
  {
  }

  /** Moving one offset. */
  lemma OffsetChange(id: nat, shared: SharedFiles, files: Files, open: Descriptors, t: Table, next: int,
                     d: int, offset: nat)
    requires TableOk(id, shared, files, open, t, next) && d in t
    requires t[d].hostDescriptor in open
    ensures var fd := t[d].hostDescriptor;
            var open' := open[fd := open[fd].(offset := offset)];
            && TableOk(id, shared, files, open', t, next)
            && ViewOpen(open', t) == ViewOpen(open, t)[d := HandleOf(open, t[d]).(offset := offset)]
  {
    var fd := t[d].hostDescriptor;
    var open' := open[fd := open[fd].(offset := offset)];
    forall e | e in t
      ensures FileOk(id, shared, files, open', t[e])
      ensures e != d ==> HandleOf(open', t[e]) == HandleOf(open, t[e])
    {
      assert FileOk(id, shared, files, open, t[e]);
    }
    assert ViewOpen(open', t) == ViewOpen(open, t)[d := HandleOf(open, t[d]).(offset := offset)];
  }

  /** A write through a private descriptor keeps the table in order. */
  lemma ContentChange(id: nat, shared: SharedFiles, files: Files, open: Descriptors, t: Table, next: int,
                      d: int, content: Bytes)
    requires TableOk(id, shared, files, open, t, next) && d in t && !t[d].shared
    ensures TableOk(id, shared, files[t[d].hostPath := content], open, t, next)
    ensures ViewFiles(id, shared, files[t[d].hostPath := content]) ==
            ViewFiles(id, shared, files)[t[d].name := content]
  {
    assert FileOk(id, shared, files, open, t[d]);
    LocalChange(id, shared, files, t[d].name, content);
    forall e | e in t
      ensures FileOk(id, shared, files[t[d].hostPath := content], open, t[e])
    {
      assert FileOk(id, shared, files, open, t[e]);
    }
  }

  /** A new descriptor, on a file that may have been created for it. */
  lemma DescriptorAdded(id: nat, shared: SharedFiles, files: Files, open: Descriptors, t: Table, next: int,
                        files': Files, f: OpenFile, h: HostFile)
    requires TableOk(id, shared, files, open, t, next)
    requires f.hostDescriptor !in open && h.offset == 0
    requires FileOk(id, shared, files', open[f.hostDescriptor := h], f)
    requires files' == files ||
             (f.name !in shared && Local(id, f.name) !in files && files' == files[Local(id, f.name) := []])
    ensures TableOk(id, shared, files', open[f.hostDescriptor := h], t[next := f], next + 1)
    ensures ViewOpen(open[f.hostDescriptor := h], t[next := f]) == ViewOpen(open, t)[next := Handle(f.name, f.flags, 0)]
  {
    var open', t' := open[f.hostDescriptor := h], t[next := f];
    assert next !in t;
    forall d | d in t
      ensures FileOk(id, shared, files', open', t[d]) && t[d].hostDescriptor != f.hostDescriptor
      ensures HandleOf(open', t[d]) == HandleOf(open, t[d])
    {
      assert FileOk(id, shared, files, open, t[d]);
    }
    assert Distinct(t');
    assert ViewOpen(open', t') == ViewOpen(open, t)[next := Handle(f.name, f.flags, 0)];
  }

  lemma DescriptorRemoved(id: nat, shared: SharedFiles, files: Files, open: Descriptors, t: Table, next: int, d: int)
    requires TableOk(id, shared, files, open, t, next) && d in t
    ensures TableOk(id, shared, files, open - {t[d].hostDescriptor}, t - {d}, next)
    ensures ViewOpen(open - {t[d].hostDescriptor}, t - {d}) == ViewOpen(open, t) - {d}
  {
    var open', t' := open - {t[d].hostDescriptor}, t - {d};
    forall e | e in t'
      ensures FileOk(id, shared, files, open', t'[e]) && HandleOf(open', t'[e]) == HandleOf(open, t[e])
    {
      assert FileOk(id, shared, files, open, t[e]);
    }
    assert ViewOpen(open', t') == ViewOpen(open, t) - {d};
  }

  // ----- privatisation

  ghost predicate Matches(f: OpenFile, name: Name) {
    f.shared && f.name == name
  }

  /** The table after every shared descriptor of `name` has moved to the local copy, descriptor d to
      the host descriptor moved[d]. */
  ghost function MovedTable(id: nat, t: Table, name: Name, moved: map<int, int>): Table {
    map d | d in t ::
      if d in moved then t[d].(hostDescriptor := moved[d], hostPath := Local(id, name), shared := false) else t[d]
  }

  lemma HasElement(s: set<int>)
    ensures s == {} || exists x :: x in s
  {
    if forall x :: x !in s {
      assert s == {};
    }
  }

  ghost function Targets(moved: map<int, int>): set<int> {
    set d | d in moved :: moved[d]
  }

  /** Every shared descriptor of `name` now is on the VM's own file of that name; the rest of it, and
      all other descriptors, are as they were. */
  ghost predicate AllMoved(id: nat, t: Table, t': Table, name: Name) {
    && t'.Keys == t.Keys
    && forall d :: d in t ==>
         if Matches(t[d], name) then
           t'[d] == t[d].(hostDescriptor := t'[d].hostDescriptor, hostPath := Local(id, name), shared := false)
         else t'[d] == t[d]
  }

  /** The host's descriptors for all files of the moved descriptors, at their old offsets. */
  ghost predicate Reopened(id: nat, open0: Descriptors, open: Descriptors, t: Table, name: Name, moved: map<int, int>) {
    && (forall d :: d in moved ==>
          && d in t && Matches(t[d], name) && moved[d] !in open0 && moved[d] in open
          && t[d].hostDescriptor in open0
          && open[moved[d]] ==
             HostFile(Local(id, name), open0[t[d].hostDescriptor].offset, CanRead(t[d].flags), CanWrite(t[d].flags)))
    && (forall d, e :: d in moved && e in moved && d != e ==> moved[d] != moved[e])
    && (forall fd :: fd in open0 ==> fd in open && open[fd] == open0[fd])
    && (forall fd :: fd in open ==> fd in open0 || fd in Targets(moved))
  }

  /** The host's descriptors once the old ones of the moved descriptors are closed. */
  ghost predicate OldClosed(t: Table, moved: map<int, int>, reopened: Descriptors, open': Descriptors) {
    && (forall fd :: fd in open' <==>
          fd in reopened && !(exists d :: d in moved && d in t && t[d].hostDescriptor == fd))
    && (forall fd :: fd in open' ==> open'[fd] == reopened[fd])
  }

  lemma MovedFile(id: nat, shared: SharedFiles, files: Files, open: Descriptors, t: Table, next: int,
                  name: Name, moved: map<int, int>, reopened: Descriptors, open': Descriptors, d: int)
    requires TableOk(id, shared, files, open, t, next) && d in t
    requires name in shared && Local(id, name) !in files
    requires Reopened(id, open, reopened, t, name, moved)
    requires d in moved <==> Matches(t[d], name)
    requires OldClosed(t, moved, reopened, open')
    ensures var files' := files[Local(id, name) := files[shared[name]]];
            var f := MovedTable(id, t, name, moved)[d];
            FileOk(id, shared, files', open', f) && HandleOf(open', f) == HandleOf(open, t[d])
    ensures d !in moved ==> t[d].hostDescriptor in open
    ensures d in moved ==> moved[d] !in open
  {
    assert FileOk(id, shared, files, open, t[d]);
    if d in moved {
      assert forall e :: e in moved ==> t[e].hostDescriptor in open;
    } else {
      assert forall e :: e in moved ==> t[e].hostDescriptor != t[d].hostDescriptor;
    }
  }

  lemma PrivatisedFiles(id: nat, shared: SharedFiles, files: Files, name: Name)
    requires SharedOk(shared, files) && name in shared && Local(id, name) !in files
    ensures var files' := files[Local(id, name) := files[shared[name]]];
            SharedOk(shared, files') && ViewFiles(id, shared, files') == ViewFiles(id, shared, files)
  {
    LocalChange(id, shared, files, name, files[shared[name]]);
  }

  /** Once all matching descriptors have moved and the old ones are closed, the table is in order
      again and the guest sees no difference: same descriptors, same offsets, same contents. */
  lemma PrivatisedView(id: nat, shared: SharedFiles, files: Files, open: Descriptors, t: Table, next: int,
                       name: Name, moved: map<int, int>, reopened: Descriptors, open': Descriptors)
    requires TableOk(id, shared, files, open, t, next)
    requires name in shared && Local(id, name) !in files
    requires Reopened(id, open, reopened, t, name, moved)
    requires forall d :: d in t ==> (d in moved <==> Matches(t[d], name))
    requires OldClosed(t, moved, reopened, open')
    ensures var files' := files[Local(id, name) := files[shared[name]]];
            && TableOk(id, shared, files', open', MovedTable(id, t, name, moved), next)
            && ViewOf(id, shared, files', open', MovedTable(id, t, name, moved), next)
               == ViewOf(id, shared, files, open, t, next)
  {
    var files' := files[Local(id, name) := files[shared[name]]];
    var t' := MovedTable(id, t, name, moved);
    PrivatisedFiles(id, shared, files, name);
    forall d | d in t'
      ensures FileOk(id, shared, files', open', t'[d]) && HandleOf(open', t'[d]) == HandleOf(open, t[d])
      ensures d !in moved ==> t[d].hostDescriptor in open
      ensures d in moved ==> moved[d] !in open
    {
      MovedFile(id, shared, files, open, t, next, name, moved, reopened, open', d);
    }
    assert Distinct(t');
    SameHandles(open, t, open', t');
  }

  // ----- isolation between VMs

  /** The host changed only in the directory of VM `id` and in descriptors it owned or owns. */
  ghost predicate Confined(id: nat, files: Files, open: Descriptors, own: set<int>,
                           files': Files, open': Descriptors, own': set<int>) {
    && (forall p: Path :: !(p.Local? && p.vm == id) ==>
          (p in files <==> p in files') && (p in files ==> files'[p] == files[p]))
    && open'.Keys - own' == open.Keys - own
    && (forall fd :: fd in open.Keys - own && fd in open' ==> open'[fd] == open[fd])
    && Exclusive(id, open, own, open', own')
  }

  /** No descriptor taken on points into another VM's directory. */
  ghost predicate Exclusive(id: nat, open: Descriptors, own: set<int>, open': Descriptors, own': set<int>) {
    forall fd :: fd in own' && fd in open' && open'[fd].path.Local? && open'[fd].path.vm != id ==>
      fd in own && fd in open && open[fd].path == open'[fd].path
  }

  /** Every open descriptor on a file of VM `id` is its own. */
  ghost predicate OwnDirectory(id: nat, open: Descriptors, own: set<int>) {
    forall fd :: fd in open && open[fd].path.Local? && open[fd].path.vm == id ==> fd in own
  }

  lemma OwnDirectoryKept(id: nat, files: Files, open: Descriptors, own: set<int>,
                         files': Files, open': Descriptors, own': set<int>)
    requires Confined(id, files, open, own, files', open', own') && OwnDirectory(id, open, own)
    ensures OwnDirectory(id, open', own')
  {
    forall fd | fd in open'.Keys - own'
      ensures open'[fd].path.Local? ==> open'[fd].path.vm != id
    {
      assert fd in open.Keys - own;
    }
  }

  lemma OtherDirectoryKept(id: nat, files: Files, open: Descriptors, own: set<int>,
                           files': Files, open': Descriptors, own': set<int>, other: nat, others: set<int>)
    requires Confined(id, files, open, own, files', open', own') && other != id
    requires OwnDirectory(other, open, others) && others !! own
    ensures OwnDirectory(other, open', others)
  {
    forall fd | fd in open' && open'[fd].path.Local? && open'[fd].path.vm == other
      ensures fd in others
    {
      if fd !in own' {
        assert fd in open.Keys - own;
      }
    }
  }

  lemma OtherFiles(id: nat, files: Files, open: Descriptors, own: set<int>,
                   files': Files, open': Descriptors, own': set<int>, other: nat, shared: SharedFiles)
    requires Confined(id, files, open, own, files', open', own') && other != id && SharedOk(shared, files)
    ensures SharedOk(shared, files') && ViewFiles(other, shared, files') == ViewFiles(other, shared, files)
  {
  }

  /** So another VM keeps its table, its view and the exclusive use of its descriptors. */
  lemma OtherVmUnaffected(id: nat, files: Files, open: Descriptors, own: set<int>,
                          files': Files, open': Descriptors, own': set<int>,
                          other: nat, shared: SharedFiles, t: Table, next: int)
    requires Confined(id, files, open, own, files', open', own') && other != id
    requires TableOk(other, shared, files, open, t, next) && Owned(t) !! own
    ensures TableOk(other, shared, files', open', t, next) && Owned(t) !! own'
    ensures ViewOf(other, shared, files', open', t, next) == ViewOf(other, shared, files, open, t, next)
  {
    forall d | d in t
      ensures t[d].hostDescriptor in open.Keys - own && t[d].hostDescriptor in open'.Keys - own'
      ensures FileOk(other, shared, files', open', t[d]) && HandleOf(open', t[d]) == HandleOf(open, t[d])
    {
      assert FileOk(other, shared, files, open, t[d]);
      assert t[d].hostDescriptor in Owned(t);
      assert t[d].hostDescriptor in open.Keys - own;
    }
    SameHandles(open, t, open', t);
    OtherFiles(id, files, open, own, files', open', own', other, shared);
  }

  // ----- whole requests

  function ResolvedPath(id: nat, shared: SharedFiles, files: Files, name: Name): Path {
    if Local(id, name) !in files && name in shared then shared[name] else Local(id, name)
  }

  /** Opening a name: the file layer's new descriptor is the private system's new descriptor. */
  lemma OpenedView(id: nat, shared: SharedFiles, files: Files, open: Descriptors, t: Table, next: int,
                   name: Name, flags: int, fd: int, f: OpenFile, h: HostFile, files': Files, mem: Bytes)
    requires TableOk(id, shared, files, open, t, next) && ValidFlags(flags) && fd !in open
    requires Local(id, name) in files || name in shared || Creates(flags)
    requires var isShared := Local(id, name) !in files && name in shared;
             var path := ResolvedPath(id, shared, files, name);
             && f == OpenFile(fd, flags, name, path, isShared)
             && h == HostFile(path, 0, isShared || CanRead(flags), !isShared && CanWrite(flags))
             && files' == (if path in files then files else files[path := []])
    ensures TableOk(id, shared, files', open[fd := h], t[next := f], next + 1)
    ensures Reply(ViewOf(id, shared, files', open[fd := h], t[next := f], next + 1), mem, next)
            == OpenNamed(ViewOf(id, shared, files, open, t, next), mem, name, flags)
    ensures Confined(id, files, open, Owned(t), files', open[fd := h], Owned(t[next := f]))
  {
    DescriptorAdded(id, shared, files, open, t, next, files', f, h);
    CreatedFile(id, shared, files, name);
    assert next !in t;
    OpenConfined(id, files, open, t, next, f, h, files');
  }

  lemma CreatedFile(id: nat, shared: SharedFiles, files: Files, name: Name)
    requires SharedOk(shared, files)
    ensures var path := ResolvedPath(id, shared, files, name);
            var files' := if path in files then files else files[path := []];
            var view := ViewFiles(id, shared, files);
            && SharedOk(shared, files')
            && ViewFiles(id, shared, files') == if name in view then view else view[name := []]
  {
    LocalChange(id, shared, files, name, []);
  }

  lemma OpenConfined(id: nat, files: Files, open: Descriptors, t: Table, next: int,
                     f: OpenFile, h: HostFile, files': Files)
    requires next !in t && f.hostDescriptor !in open
    requires h.path.Local? ==> h.path.vm == id
    requires files' == files || (f.hostPath.Local? && f.hostPath.vm == id && files' == files[f.hostPath := []])
    ensures Confined(id, files, open, Owned(t), files', open[f.hostDescriptor := h], Owned(t[next := f]))
  {
    OwnedAdded(t, next, f);
  }

  lemma OwnedAdded(t: Table, next: int, f: OpenFile)
    requires next !in t
    ensures Owned(t[next := f]) == Owned(t) + {f.hostDescriptor}
  {
    forall fd | fd in Owned(t) + {f.hostDescriptor}
      ensures fd in Owned(t[next := f])
    {
      if fd == f.hostDescriptor {
        assert t[next := f][next].hostDescriptor == fd;
      } else {
        var d :| d in t && t[d].hostDescriptor == fd;
        assert d in t[next := f] && t[next := f][d] == t[d];
      }
    }
  }

  lemma OwnedRemoved(t: Table, d: int)
    requires d in t && Distinct(t)
    ensures Owned(t - {d}) == Owned(t) - {t[d].hostDescriptor}
  {
    forall fd | fd in Owned(t) - {t[d].hostDescriptor}
      ensures fd in Owned(t - {d})
    {
      var e :| e in t && t[e].hostDescriptor == fd;
      assert e in t - {d} && (t - {d})[e] == t[e];
    }
  }

  lemma ClosedView(id: nat, shared: SharedFiles, files: Files, open: Descriptors, t: Table, next: int, d: int)
    requires TableOk(id, shared, files, open, t, next) && d in t
    ensures var fd := t[d].hostDescriptor;
            && fd in open
            && TableOk(id, shared, files, open - {fd}, t - {d}, next)
            && ViewOf(id, shared, files, open - {fd}, t - {d}, next)
               == ViewOf(id, shared, files, open, t, next).(open := ViewOpen(open, t) - {d})
            && Confined(id, files, open, Owned(t), files, open - {fd}, Owned(t - {d}))
  {
    assert FileOk(id, shared, files, open, t[d]);
    DescriptorRemoved(id, shared, files, open, t, next, d);
    OwnedRemoved(t, d);
    assert t[d].hostDescriptor in Owned(t);
  }

  /** Moving an offset of one's own descriptor. */
  lemma MovedView(id: nat, shared: SharedFiles, files: Files, open: Descriptors, t: Table, next: int,
                  d: int, offset: nat)
    requires TableOk(id, shared, files, open, t, next) && d in t
    ensures var fd := t[d].hostDescriptor;
            && fd in open
            && var open' := open[fd := open[fd].(offset := offset)];
            && var p := ViewOf(id, shared, files, open, t, next);
            && TableOk(id, shared, files, open', t, next)
            && d in p.open
            && ViewOf(id, shared, files, open', t, next) == p.(open := p.open[d := p.open[d].(offset := offset)])
            && Confined(id, files, open, Owned(t), files, open', Owned(t))
  {
    assert FileOk(id, shared, files, open, t[d]);
    assert t[d].hostDescriptor in Owned(t);
    OffsetChange(id, shared, files, open, t, next, d, offset);
  }

  /** A write through a private descriptor. */
  lemma WrittenView(id: nat, shared: SharedFiles, files: Files, open: Descriptors, t: Table, next: int,
                    d: int, data: Bytes, mem: Bytes, files': Files, open': Descriptors)
    requires TableOk(id, shared, files, open, t, next) && d in t && !t[d].shared
    requires t[d].hostDescriptor in open && open[t[d].hostDescriptor].path in files
    requires var h := open[t[d].hostDescriptor];
             && files' == files[h.path := Overwrite(files[h.path], h.offset, data)]
             && open' == open[t[d].hostDescriptor := h.(offset := h.offset + |data|)]
    ensures TableOk(id, shared, files', open', t, next)
    ensures d in ViewOf(id, shared, files, open, t, next).open
    ensures Reply(ViewOf(id, shared, files', open', t, next), mem, |data|)
            == WriteBytes(ViewOf(id, shared, files, open, t, next), mem, d, data)
    ensures Confined(id, files, open, Owned(t), files', open', Owned(t))
  {
    OnOwnFile(id, shared, files, open, t, next, d);
    WrittenReply(id, shared, files, open, t, next, d, data, mem, open[t[d].hostDescriptor], files', open');
    WriteConfined(id, files, open, t, d, files'[t[d].hostPath], open'[t[d].hostDescriptor].offset);
  }

  lemma WrittenReply(id: nat, shared: SharedFiles, files: Files, open: Descriptors, t: Table, next: int,
                     d: int, data: Bytes, mem: Bytes, h: HostFile, files': Files, open': Descriptors)
    requires TableOk(id, shared, files, open, t, next) && d in t && !t[d].shared
    requires t[d].hostDescriptor in open && h == open[t[d].hostDescriptor]
    requires h.path == t[d].hostPath && h.path in files
    requires files' == files[h.path := Overwrite(files[h.path], h.offset, data)]
    requires open' == open[t[d].hostDescriptor := h.(offset := h.offset + |data|)]
    ensures TableOk(id, shared, files', open', t, next)
    ensures d in ViewOf(id, shared, files, open, t, next).open
    ensures Reply(ViewOf(id, shared, files', open', t, next), mem, |data|)
            == WriteBytes(ViewOf(id, shared, files, open, t, next), mem, d, data)
  {
    var content := Overwrite(files[h.path], h.offset, data);
    ContentAndOffset(id, shared, files, open, t, next, d, content, h.offset + |data|, files', open');
    WriteShows(id, shared, files, open, t, next, d, data, mem);
  }

  /** A private descriptor is on the VM's own file. */
  lemma OnOwnFile(id: nat, shared: SharedFiles, files: Files, open: Descriptors, t: Table, next: int, d: int)
    requires TableOk(id, shared, files, open, t, next) && d in t && !t[d].shared
    ensures t[d].hostDescriptor in open && t[d].hostPath == Local(id, t[d].name)
    ensures open[t[d].hostDescriptor].path == t[d].hostPath
  {
    assert FileOk(id, shared, files, open, t[d]);
  }

  /** What the write is in terms of the host's files. */
  lemma WriteShows(id: nat, shared: SharedFiles, files: Files, open: Descriptors, t: Table, next: int,
                   d: int, data: Bytes, mem: Bytes)
    requires TableOk(id, shared, files, open, t, next) && d in t && t[d].hostDescriptor in open
    ensures var p, h := ViewOf(id, shared, files, open, t, next), open[t[d].hostDescriptor];
            && h.path in files && d in p.open
            && WriteBytes(p, mem, d, data) ==
               Reply(Private(p.files[t[d].name := Overwrite(files[h.path], h.offset, data)],
                             p.open[d := p.open[d].(offset := h.offset + |data|)], p.next), mem, |data|)
  {
    var p, h := ViewOf(id, shared, files, open, t, next), open[t[d].hostDescriptor];
    assert FileOk(id, shared, files, open, t[d]);
    ViewContent(id, shared, files, open, t, next, d);
    WriteReply(p, mem, d, data, t[d].name, h.offset, Overwrite(files[h.path], h.offset, data));
  }

  /** New content of the file of one descriptor, and a new offset. */
  lemma ContentAndOffset(id: nat, shared: SharedFiles, files: Files, open: Descriptors, t: Table, next: int,
                         d: int, content: Bytes, offset: nat, files': Files, open': Descriptors)
    requires TableOk(id, shared, files, open, t, next) && d in t && !t[d].shared
    requires t[d].hostDescriptor in open
    requires files' == files[t[d].hostPath := content]
    requires open' == open[t[d].hostDescriptor := open[t[d].hostDescriptor].(offset := offset)]
    ensures TableOk(id, shared, files', open', t, next)
    ensures var p := ViewOf(id, shared, files, open, t, next);
            && d in p.open
            && ViewOf(id, shared, files', open', t, next) ==
               Private(p.files[t[d].name := content], p.open[d := p.open[d].(offset := offset)], p.next)
  {
    assert FileOk(id, shared, files, open, t[d]);
    ContentChange(id, shared, files, open, t, next, d, content);
    OffsetChange(id, shared, files', open, t, next, d, offset);
  }

  /** What a write of `data` does in the private system. */
  lemma WriteReply(p: Private, mem: Bytes, d: int, data: Bytes, name: Name, offset: nat, content: Bytes)
    requires d in p.open && p.open[d].name == name && p.open[d].offset == offset
    requires content == Overwrite(Content(p, name), offset, data)
    ensures WriteBytes(p, mem, d, data) ==
            Reply(Private(p.files[name := content], p.open[d := p.open[d].(offset := offset + |data|)], p.next),
                  mem, |data|)
  {
  }

  lemma WriteConfined(id: nat, files: Files, open: Descriptors, t: Table, d: int, content: Bytes, offset: nat)
    requires d in t && t[d].hostDescriptor in open
    requires open[t[d].hostDescriptor].path.Local? && open[t[d].hostDescriptor].path.vm == id
    ensures var fd := t[d].hostDescriptor;
            Confined(id, files, open, Owned(t), files[open[fd].path := content],
                     open[fd := open[fd].(offset := offset)], Owned(t))
  {
    assert t[d].hostDescriptor in Owned(t);
  }

  /** Changes confined to one VM, one after the other. */
  lemma ConfinedTransitive(id: nat, files: Files, open: Descriptors, own: set<int>,
                           files': Files, open': Descriptors, own': set<int>,
                           files'': Files, open'': Descriptors, own'': set<int>)
    requires Confined(id, files, open, own, files', open', own')
    requires Confined(id, files', open', own', files'', open'', own'')
    ensures Confined(id, files, open, own, files'', open'', own'')
  {
    forall fd | fd in open.Keys - own && fd in open''
      ensures open''[fd] == open[fd]
    {
      assert fd in open'.Keys - own';
      assert open'[fd] == open[fd];
    }
  }

  /** A read: the bytes and the new offset are those of the private system. */
  /** What a read of `n` bytes does in the private system. */
  lemma ReadReply(p: Private, mem: Bytes, req: Request, content: Bytes, n: nat, mem': Bytes)
    requires req.descriptor in p.open && CanRead(p.open[req.descriptor].flags)
    requires req.count > 0 && InMemory(req.buffer, req.count, |mem|)
    requires var h := p.open[req.descriptor];
             && content == Content(p, h.name)
             && n == Available(content, h.offset, req.count)
             && mem' == if n == 0 then mem else Store(mem, req.buffer, content[h.offset..h.offset + n])
    ensures var h := p.open[req.descriptor];
            Read(p, mem, req) == Reply(p.(open := p.open[req.descriptor := h.(offset := h.offset + n)]), mem', n)
  {
    var h := p.open[req.descriptor];
    assert p.open[req.descriptor := h.(offset := h.offset)] == p.open;
  }

  lemma ReadView(id: nat, shared: SharedFiles, files: Files, open: Descriptors, t: Table, next: int,
                 mem: Bytes, req: Request, fd: int, h: HostFile, n: nat, open': Descriptors, mem': Bytes)
    requires TableOk(id, shared, files, open, t, next) && req.descriptor in t
    requires CanRead(t[req.descriptor].flags) && req.count > 0 && InMemory(req.buffer, req.count, |mem|)
    requires fd == t[req.descriptor].hostDescriptor && fd in open && h == open[fd] && h.path in files
    requires n == Available(files[h.path], h.offset, req.count)
    requires open' == open[fd := h.(offset := h.offset + n)]
    requires mem' == if n == 0 then mem else Store(mem, req.buffer, files[h.path][h.offset..h.offset + n])
    ensures TableOk(id, shared, files, open', t, next)
    ensures Reply(ViewOf(id, shared, files, open', t, next), mem', n) ==
            Read(ViewOf(id, shared, files, open, t, next), mem, req)
    ensures Confined(id, files, open, Owned(t), files, open', Owned(t))
  {
    var d := req.descriptor;
    MovedTo(id, shared, files, open, t, next, d, fd, h.offset + n, open');
    ReadShows(id, shared, files, open, t, next, mem, req, n, mem');
  }

  /** Moving one offset, for the table, the view and the others. */
  lemma MovedTo(id: nat, shared: SharedFiles, files: Files, open: Descriptors, t: Table, next: int,
                d: int, fd: int, offset: nat, open': Descriptors)
    requires TableOk(id, shared, files, open, t, next) && d in t && fd == t[d].hostDescriptor && fd in open
    requires open' == open[fd := open[fd].(offset := offset)]
    ensures TableOk(id, shared, files, open', t, next)
    ensures Confined(id, files, open, Owned(t), files, open', Owned(t))
    ensures var p := ViewOf(id, shared, files, open, t, next);
            && d in p.open
            && ViewOf(id, shared, files, open', t, next) == p.(open := p.open[d := p.open[d].(offset := offset)])
  {
    MovedView(id, shared, files, open, t, next, d, offset);
  }

  /** What the read is in terms of the host's files. */
  lemma ReadShows(id: nat, shared: SharedFiles, files: Files, open: Descriptors, t: Table, next: int,
                  mem: Bytes, req: Request, n: nat, mem': Bytes)
    requires TableOk(id, shared, files, open, t, next) && req.descriptor in t
    requires CanRead(t[req.descriptor].flags) && req.count > 0 && InMemory(req.buffer, req.count, |mem|)
    requires t[req.descriptor].hostDescriptor in open && open[t[req.descriptor].hostDescriptor].path in files
    requires var h := open[t[req.descriptor].hostDescriptor];
             && n == Available(files[h.path], h.offset, req.count)
             && mem' == if n == 0 then mem else Store(mem, req.buffer, files[h.path][h.offset..h.offset + n])
    ensures var p, h := ViewOf(id, shared, files, open, t, next), open[t[req.descriptor].hostDescriptor];
            && req.descriptor in p.open
            && Read(p, mem, req) ==
               Reply(p.(open := p.open[req.descriptor := p.open[req.descriptor].(offset := h.offset + n)]), mem', n)
  {
    var d := req.descriptor;
    assert FileOk(id, shared, files, open, t[d]);
    ViewContent(id, shared, files, open, t, next, d);
    ReadReply(ViewOf(id, shared, files, open, t, next), mem, req, files[open[t[d].hostDescriptor].path], n, mem');
  }

  /** One more descriptor reopened on the local copy. */
  lemma ReopenedOneMore(id: nat, open0: Descriptors, open: Descriptors, t: Table, name: Name, moved: map<int, int>,
                        d: int, fd: int)
    requires Reopened(id, open0, open, t, name, moved)
    requires d in t && d !in moved && Matches(t[d], name) && t[d].hostDescriptor in open0 && fd !in open
    ensures Reopened(id, open0,
                     open[fd := HostFile(Local(id, name), open0[t[d].hostDescriptor].offset,
                                         CanRead(t[d].flags), CanWrite(t[d].flags))],
                     t, name, moved[d := fd])
  {
    var open' := open[fd := HostFile(Local(id, name), open0[t[d].hostDescriptor].offset,
                                     CanRead(t[d].flags), CanWrite(t[d].flags))];
    var moved' := moved[d := fd];
    assert d in moved'.Keys && moved'[d] == fd;
    forall x | x in open'
      ensures x in open0 || x in Targets(moved')
    {
      if x == fd {
        assert moved'[d] in Targets(moved');
      } else if x !in open0 {
        var e :| e in moved && moved[e] == x;
        assert moved'[e] == x;
      }
    }
  }

  /** Closing everything reopened restores the host's descriptors. */
  lemma RolledBack(id: nat, open0: Descriptors, open: Descriptors, t: Table, name: Name, moved: map<int, int>)
    requires Reopened(id, open0, open, t, name, moved)
    ensures open - Targets(moved) == open0
  {
    var rest := open - Targets(moved);
    assert forall fd :: fd in Targets(moved) ==> fd !in open0;
    forall fd
      ensures fd in rest.Keys <==> fd in open0.Keys
    {
      assert fd in rest <==> fd in open && fd !in Targets(moved);
    }
    assert rest.Keys == open0.Keys;
    assert forall fd :: fd in open0 ==> rest[fd] == open0[fd];
  }

  /** Closing one old descriptor more, and pointing its guest descriptor at the copy. */
  lemma CommittedOneMore(id: nat, t: Table, name: Name, moved: map<int, int>, todo: set<int>, d: int,
                         reopened: Descriptors, open: Descriptors, now: Table)
    requires Distinct(t) && d in todo && todo <= moved.Keys <= t.Keys
    requires OldClosed(t, Except(moved, todo), reopened, open)
    requires now == MovedTable(id, t, name, Except(moved, todo))
    requires t[d].hostDescriptor in reopened
    ensures d in now && now[d] == t[d] && t[d].hostDescriptor in open
    ensures OldClosed(t, Except(moved, todo - {d}), reopened, open - {t[d].hostDescriptor})
    ensures now[d := t[d].(hostDescriptor := moved[d], hostPath := Local(id, name), shared := false)]
            == MovedTable(id, t, name, Except(moved, todo - {d}))
  {
    var before, after := Except(moved, todo), Except(moved, todo - {d});
    assert forall e :: e in after <==> e in before || e == d;
    assert forall e :: e in before ==> t[e].hostDescriptor != t[d].hostDescriptor;
    var open' := open - {t[d].hostDescriptor};
    forall fd
      ensures fd in open' <==> fd in reopened && !(exists e :: e in after && e in t && t[e].hostDescriptor == fd)
    {
      if e :| e in after && e in t && t[e].hostDescriptor == fd {
        assert e in before || e == d;
      }
      if fd in reopened && !(exists e :: e in after && e in t && t[e].hostDescriptor == fd) {
        assert d in after && t[d].hostDescriptor != fd;
        assert forall e :: e in before ==> e in after;
      }
    }
  }

  ghost function Except(m: map<int, int>, ks: set<int>): map<int, int> {
    map d | d in m && d !in ks :: m[d]
  }

  /** Privatising touches only this VM's directory and descriptors. */
  lemma PrivatisedConfined(id: nat, shared: SharedFiles, files: Files, open: Descriptors, t: Table, next: int,
                           name: Name, moved: map<int, int>, reopened: Descriptors, open': Descriptors)
    requires TableOk(id, shared, files, open, t, next)
    requires name in shared && Local(id, name) !in files
    requires Reopened(id, open, reopened, t, name, moved)
    requires forall d :: d in t ==> (d in moved <==> Matches(t[d], name))
    requires OldClosed(t, moved, reopened, open')
    ensures Confined(id, files, open, Owned(t), files[Local(id, name) := files[shared[name]]], open',
                     Owned(MovedTable(id, t, name, moved)))
  {
    forall d | d in t
      ensures t[d].hostDescriptor in open
    {
      assert FileOk(id, shared, files, open, t[d]);
    }
    var t' := MovedTable(id, t, name, moved);
    PrivatisedView(id, shared, files, open, t, next, name, moved, reopened, open');
    forall fd
      ensures fd in open'.Keys - Owned(t') <==> fd in open.Keys - Owned(t)
    {
      PrivatisedOwnership(id, open, t, name, moved, reopened, open', fd);
    }
    assert open'.Keys - Owned(t') == open.Keys - Owned(t);
    TableExclusive(id, shared, files[Local(id, name) := files[shared[name]]], open, open', Owned(t), t', next);
    PrivatisedOthers(id, open, t, name, moved, reopened, open');
  }

  lemma TableExclusive(id: nat, shared: SharedFiles, files: Files, open: Descriptors, open': Descriptors, own: set<int>,
                       t: Table, next: int)
    requires TableOk(id, shared, files, open', t, next)
    ensures Exclusive(id, open, own, open', Owned(t))
  {
    forall fd | fd in Owned(t) && fd in open' && open'[fd].path.Local?
      ensures open'[fd].path.vm == id
    {
      var d :| d in t && t[d].hostDescriptor == fd;
      assert FileOk(id, shared, files, open', t[d]);
    }
  }

  lemma PrivatisedOthers(id: nat, open: Descriptors, t: Table, name: Name, moved: map<int, int>,
                         reopened: Descriptors, open': Descriptors)
    requires Reopened(id, open, reopened, t, name, moved)
    requires OldClosed(t, moved, reopened, open')
    ensures forall fd :: fd in open.Keys - Owned(t) && fd in open' ==> open'[fd] == open[fd]
  {
  }

  lemma PrivatisedOwnership(id: nat, open: Descriptors, t: Table, name: Name, moved: map<int, int>,
                            reopened: Descriptors, open': Descriptors, fd: int)
    requires Reopened(id, open, reopened, t, name, moved)
    requires OldClosed(t, moved, reopened, open')
    requires forall d :: d in t ==> t[d].hostDescriptor in open
    ensures var t' := MovedTable(id, t, name, moved);
            fd in open'.Keys - Owned(t') <==> fd in open.Keys - Owned(t)
  {
    var t' := MovedTable(id, t, name, moved);
    if fd in open' && fd !in Owned(t') {
      if fd in Targets(moved) {
        var d :| d in moved && moved[d] == fd;
        OwnedHas(t', d);
      } else if fd in Owned(t) {
        var d :| d in t && t[d].hostDescriptor == fd;
        OwnedHas(t', d);
      }
    }
  }

  lemma OwnedHas(t: Table, d: int)
    requires d in t
    ensures t[d].hostDescriptor in Owned(t)
  {
  }

  /** A local file that does not exist has no descriptors on it. */
  lemma NobodyOn(id: nat, shared: SharedFiles, files: Files, open: Descriptors, t: Table, next: int, name: Name)
    requires TableOk(id, shared, files, open, t, next) && OwnDirectory(id, open, Owned(t))
    requires Local(id, name) !in files
    ensures forall fd :: fd in open ==> open[fd].path != Local(id, name)
  {
    forall d | d in t
      ensures open[t[d].hostDescriptor].path in files
    {
      assert FileOk(id, shared, files, open, t[d]);
    }
  }

  lemma NothingReopened(id: nat, open: Descriptors, reopened: Descriptors, open': Descriptors, t: Table, name: Name)
    requires Reopened(id, open, reopened, t, name, map[]) && OldClosed(t, map[], reopened, open')
    ensures open' == open && MovedTable(id, t, name, map[]) == t
  {
    assert Targets(map[]) == {};
    forall fd
      ensures fd in open'.Keys <==> fd in open.Keys
    {
      assert fd in open' <==> fd in reopened;
      assert fd in reopened <==> fd in open;
    }
    assert open'.Keys == open.Keys;
    assert forall fd :: fd in open ==> open'[fd] == open[fd];
  }

  /** Closing one descriptor more of a table that is being emptied. */
  lemma ClosedOneMore(t: Table, todo: set<int>, d: int, open0: Descriptors, open: Descriptors)
    requires Distinct(t) && d in todo && d in t && t[d].hostDescriptor in open0
    requires open == open0 - Owned(t - todo)
    ensures t[d].hostDescriptor in open
    ensures open - {t[d].hostDescriptor} == open0 - Owned(t - (todo - {d}))
  {
    var fd := t[d].hostDescriptor;
    OwnedAdded(t - todo, d, t[d]);
    assert t - (todo - {d}) == (t - todo)[d := t[d]];
    assert fd !in Owned(t - todo);
    assert Owned(t - (todo - {d})) == Owned(t - todo) + {fd};
    assert (open - {fd}).Keys == (open0 - Owned(t - (todo - {d}))).Keys;
  }
}
