/**
 The directory functions of `fs.c` and the calls of `sysfile.c` that use them, as they run on a shared inode table.
 */
module Sysfile {
  import opened Links

  /** A name as a directory holds it: its first 14 characters. */
  function Stored(name: string): (r: string)
    ensures |r| <= DIRSIZ
  {
    if |name| <= DIRSIZ then name else name[..DIRSIZ]
  }

  /** The character that `strncmp` sees at offset `i`. */
  function CharAt(s: string, i: nat): char {
    if i < |s| then s[i] else '\0'
  }

  /** `namecmp`: `strncmp` over 14 characters, of strings that end at a NUL. */
  method SameName(s: string, t: string) returns (same: bool)
    requires '\0' !in s && '\0' !in t
    ensures same <==> Stored(s) == Stored(t)
  {
    var i := 0;
    while i < DIRSIZ && CharAt(s, i) != '\0' && CharAt(s, i) == CharAt(t, i)
      invariant i <= DIRSIZ && i <= |s| && i <= |t| && s[..i] == t[..i]
    {
      i := i + 1;
    }
    same := i == DIRSIZ || CharAt(s, i) == CharAt(t, i);
    if same {
      assert Stored(s) == s[..i] && Stored(t) == t[..i];
    } else if i < |s| && i < |t| {
      assert Stored(s)[i] == s[i] && Stored(t)[i] == t[i];
    } else {
      assert |Stored(s)| == i || |Stored(t)| == i;
    }
  }

  /** No name in a directory holds a NUL. */
  ghost predicate Names(t: Tree) {
    forall d, k | 0 <= d < |t| && 0 <= k < |t[d].entries| :: '\0' !in t[d].entries[k].name
  }

  datatype Outcome = Made(ip: nat) | Found(ip: nat) | Refused | NoInodes

  class Inodes {
    var t: Tree

    ghost predicate Valid() reads this {
      Inv(t) && Names(t)
    }

    method DirLookup(dp: nat, name: string) returns (found: bool, k: nat)
      requires Valid() && dp < |t| && '\0' !in name
      ensures found ==> k < |t[dp].entries| && t[dp].entries[k].inum != 0 && t[dp].entries[k].name == Stored(name)
      ensures !found ==> NoName(t[dp].entries, Stored(name))
    {
      k := 0;
      while k < |t[dp].entries|
        invariant k <= |t[dp].entries|
        invariant forall j | 0 <= j < k && t[dp].entries[j].inum != 0 :: t[dp].entries[j].name != Stored(name)
      {
        var de := t[dp].entries[k];
        assert EntryOk(t, dp, k);
        if de.inum != 0 {
          var same := SameName(name, de.name);
          if same {
            return true, k;
          }
        }
        k := k + 1;
      }
      found := false;
    }

    /** The loop of `dirlink` that looks for a place for a new entry. */
    method FreeEntry(dp: nat) returns (k: nat)
      requires dp < |t|
      ensures FirstFree(t[dp].entries, k)
    {
      k := 0;
      while k < |t[dp].entries| && t[dp].entries[k].inum != 0
        invariant k <= |t[dp].entries| && forall j | 0 <= j < k :: t[dp].entries[j].inum != 0
      {
        k := k + 1;
      }
    }

    method IsDirEmpty(dp: nat) returns (empty: bool)
      requires dp < |t|
      ensures empty <==> Empty(t[dp].entries)
    {
      var k := 2;
      while k < |t[dp].entries|
        invariant forall j | 2 <= j < k && j < |t[dp].entries| :: t[dp].entries[j].inum == 0
      {
        if t[dp].entries[k].inum != 0 {
          return false;
        }
        k := k + 1;
      }
      empty := true;
    }

    /** The first free inode, or the size of the table. */
    method Ialloc() returns (ip: nat)
      requires |t| > 0
      ensures 0 < ip <= |t| && (ip < |t| ==> t[ip].kind.Free?)
      ensures forall j | 0 < j < ip :: !t[j].kind.Free?
    {
      ip := 1;
      while ip < |t| && !t[ip].kind.Free?
        invariant 0 < ip <= |t| && forall j | 0 < j < ip :: !t[j].kind.Free?
      {
        ip := ip + 1;
      }
    }

    /** `create`, while the directory is locked. Both calls of `dirlink` for a new directory find it empty. */
    method Create(dp: nat, name: string, kind: Kind) returns (r: Outcome)
      requires Valid() && CanEnter(t, dp) && '\0' !in name && !kind.Free?
      modifies this
      ensures Valid()
      ensures r.Made? ==> exists k: nat :: Next(old(t), Links.Create(dp, Stored(name), k, r.ip, kind), t)
      ensures r.Made? <==> NoName(old(t)[dp].entries, Stored(name)) && exists i ::
                0 < i < |old(t)| && old(t)[i].kind.Free?
      ensures r.Found? || r.Refused? <==> !NoName(old(t)[dp].entries, Stored(name))
      ensures r.Found? ==> r.ip < |t| && kind.File? && t[r.ip].kind.File?
      ensures !r.Made? ==> t == old(t)
    {
      var found, k := DirLookup(dp, name);
      if found {
        var ip := t[dp].entries[k].inum;
        return if kind.File? && ip < |t| && t[ip].kind.File? then Found(ip) else Refused;
      }
      var ip := Ialloc();
      if ip == |t| {
        return NoInodes;
      }
      k := FreeEntry(dp);
      r := Made(ip);
      var dir := t[dp];
      t := t[ip := Links.Made(t[ip], kind, ip, dp, k, dir.linked)];
      t := t[dp := dir.(nlink := dir.nlink + OneIf(kind.Dir?),
                        entries := PutEntry(dir.entries, k, Entry(ip, Stored(name))))];
      assert Next(old(t), Links.Create(dp, Stored(name), k, ip, kind), t);
      NextKeeps(old(t), Links.Create(dp, Stored(name), k, ip, kind), t);
    }

    /** The second half of `link`: the new entry, or the count taken back. */
    method LinkEntry(dp: nat, name: string, ip: nat) returns (ok: bool)
      requires Valid() && CanEnter(t, dp) && '\0' !in name && Owned(t, ip) && t[ip].credit > 0
      modifies this
      ensures Valid()
      ensures ok <==> NoName(old(t)[dp].entries, Stored(name))
      ensures ok ==> exists k: nat :: Next(old(t), LinkEnd(dp, Stored(name), k, ip), t)
      ensures !ok ==> Next(old(t), LinkUndo(ip), t)
    {
      var found, k := DirLookup(dp, name);
      if found {
        t := t[ip := t[ip].(nlink := t[ip].nlink - 1, credit := t[ip].credit - 1)];
        NextKeeps(old(t), LinkUndo(ip), t);
        return false;
      }
      k := FreeEntry(dp);
      assert NodeOk(t, ip) && NodeOk(t, dp);
      t := t[dp := t[dp].(entries := PutEntry(t[dp].entries, k, Entry(ip, Stored(name))))];
      t := t[ip := t[ip].(credit := t[ip].credit - 1)];
      assert t == old(t)[ip := t[ip]][dp := t[dp]];
      assert Next(old(t), LinkEnd(dp, Stored(name), k, ip), t);
      NextKeeps(old(t), LinkEnd(dp, Stored(name), k, ip), t);
      ok := true;
    }

    /** The part of `unlink` that removes the entry; the caller has looked the name up and holds both inodes. */
    method UnlinkName(dp: nat, k: nat) returns (ok: bool)
      requires Valid() && Owned(t, dp) && t[dp].kind.Dir? && k < |t[dp].entries| && t[dp].entries[k].inum != 0
      requires Owned(t, t[dp].entries[k].inum)
      modifies this
      ensures Valid()
      ensures ok <==> var e := old(t)[dp].entries[k];
                      && e.name != "." && e.name != ".."
                      && (old(t)[e.inum].kind.Dir? ==> Empty(old(t)[e.inum].entries))
      ensures ok ==> Next(old(t), UnlinkEntry(dp, k, old(t)[dp].entries[k].inum), t)
      ensures !ok ==> t == old(t)
    {
      var e := t[dp].entries[k];
      if e.name == "." || e.name == ".." {
        return false;
      }
      var ip := e.inum;
      if t[ip].kind.Dir? {
        var empty := IsDirEmpty(ip);
        if !empty {
          return false;
        }
      }
      assert ip != dp by {
        assert DirOk(t, dp) && EntryOk(t, dp, k) && PlaceOk(t, ip);
      }
      var dir := t[dp].(entries := t[dp].entries[k := Entry(0, "")]);
      if t[ip].kind.Dir? {
        dir := dir.(nlink := dir.nlink - 1);
      }
      t := t[ip := t[ip].(linked := false, debt := t[ip].debt + 1)][dp := dir];
      assert Next(old(t), UnlinkEntry(dp, k, ip), t);
      NextKeeps(old(t), UnlinkEntry(dp, k, ip), t);
      ok := true;
    }

    /** `iput` up to the decrement: the last reference to an inode without links frees it. */
    method IputCheck(ip: nat) returns (freed: bool)
      requires Valid() && Owned(t, ip)
      modifies this
      ensures Valid() && ip < |t| && t[ip].leaving == old(t)[ip].leaving + 1
      ensures freed <==> old(t)[ip].nlink == 0 && old(t)[ip].ref == 1
      ensures freed ==> Count(old(t), ip) == 0 && t[ip].kind.Free?
      ensures !freed ==> Next(old(t), PutKeep(ip), t)
    {
      assert NodeOk(t, ip) && CountOk(t, ip) && NodeOk(t, 0);
      freed := t[ip].nlink == 0 && t[ip].ref == 1;
      if freed {
        t := t[ip := t[ip].(freeing := true)];
        NextKeeps(old(t), PutFree(ip), t);
        ghost var s := t;
        t := t[ip := t[ip].(kind := Free, entries := [], freeing := false, leaving := t[ip].leaving + 1)];
        NextKeeps(s, PutFreed(ip), t);
      } else {
        t := t[ip := t[ip].(leaving := t[ip].leaving + 1)];
        NextKeeps(old(t), PutKeep(ip), t);
      }
    }
  }
}
