/** Any sequence of calls on the running file system: what it returns, and what a program sees. */
module FsCalls {
  import M = FsModel
  import opened FsRuns
  import opened FsView
  import opened FsTheorems
  import opened FileSystems

  /** One call on the running file system. */
  method Perform(fs: FileSystem, e: Event) returns (reply: M.Reply)
    requires fs.Valid() && M.Linked(fs.State()) && Legal(fs.State(), e)
    modifies fs, fs.inodes, fs.directory, fs.fds, fs.usedBlocksBitmap, fs.disk, fs.disk.blocks
    ensures fs.Valid() && (fs.State(), reply) == Call(old(fs.State()), e)
  {
    hide M.DoMake, M.DoMount, M.DoUnmount, M.DoCreate, M.DoOpen, M.DoClose, M.DoDelete, M.DoRead, M.DoWrite, M.DoSeek,
        M.DoSize;
    var r: int, data := 0, [];
    match e {
      case Make(rest) => r := fs.MakeFs(rest);
      case Mount => r := fs.MountFs();
      case Unmount(rest) => r := fs.UmountFs(rest);
      case Create(name, rest) => r := fs.FsCreate(name, rest);
      case Open(name) => r := fs.FsOpen(name);
      case Close(fd) => r := fs.FsClose(fd);
      case Delete(name) => r := fs.FsDelete(name);
      case Read(fd, n) => r, data := fs.FsRead(fd, n);
      case Write(fd, buf) => r := fs.FsWrite(fd, buf);
      case Seek(fd, offset) => r := fs.FsLseek(fd, offset);
      case Size(fd) => r := fs.FsGetFilesize(fd);
    }
    reply := M.Reply(r, data);
  }

  /** From a newly made file system on, any sequence of calls returns what the simple file system
      returns and leaves the view the simple one leaves. */
  method PerformAll(fs: FileSystem, ghost c: Config, es: seq<Event>) returns (replies: seq<M.Reply>)
    requires fs.Valid() && fs.State() == c.s && Inv(c) && IsRun(c, es)
    modifies fs, fs.inodes, fs.directory, fs.fds, fs.usedBlocksBitmap, fs.disk, fs.disk.blocks
    ensures fs.Valid() && fs.State() == After(c, es).s && Inv(After(c, es))
    ensures EntriesSound(Image(c.s)) && EntriesSound(Image(fs.State()))
    ensures Playable(ViewOf(c.s), es) && Play(ViewOf(c.s), es) == (ViewOf(fs.State()), replies)
  {
    hide Inv, Legal, Call, ViewOf, Playable, Play, EntriesSound;
    replies := [];
    ghost var now, left := c, es;
    var i := 0;
    while i < |es|
      invariant i <= |es| && left == es[i..] && fs.Valid() && fs.State() == now.s && Inv(now)
      invariant IsRun(now, left) && After(now, left) == After(c, es) && replies + Replies(now, left) == Replies(c, es)
    {
      var reply := Perform(fs, es[i]);
      StepKeepsInv(now, left[0]);
      replies := replies + [reply];
      now, left := Step(now, left[0]), left[1..];
      i := i + 1;
    }
    assert left == [] && replies + [] == replies;
    RefinesSimple(c, es);
  }
}
