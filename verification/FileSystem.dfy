/** fs.c: the directory tree as linked objects, refining the state machine of FsState. */
module FileSystem {
  import opened CTypes
  import opened Text
  import opened NodeGraph
  import opened GraphEdits
  import opened Forest
  import opened KernelHeap
  import opened FsState
  import opened FsInvariant
  import opened FsNodes
  import opened FsClone
  import opened FsResolve
  import Crypto

  class FileSystem {
    var root: Node
    var cwd: Node
    /** The snapshot list, newest first. */
    var snaps: seq<Snap<Node>>
    const heap: Heap
    const crypto: Crypto.Engine
    /** The graph the links spell, and the roots ever made. */
    ghost var g: Graph<Node>
    ghost var roots: set<Node>

    ghost function S(): State<Node>
      requires crypto.Valid()
      reads this, heap, crypto, crypto.keyBytes
    {
      State(g, root, cwd, snaps, roots, crypto.Current(), heap.offset)
    }

    ghost predicate Valid()
      reads this, heap, crypto, crypto.keyBytes, g.Keys
    {
      heap.Valid() && crypto.Valid() && Inv(S()) && Linked(g)
    }

    /** fs_init */
    constructor (heap: Heap, crypto: Crypto.Engine)
      requires heap.Valid() && crypto.Valid() && Fits(heap.offset, NODE_SIZE)
      modifies heap
      ensures Valid() && this.heap == heap && this.crypto == crypto && fresh(g.Keys)
      ensures S() == Initial(root, [], heap.offset).(key := crypto.Current()) && Names(S())
    {
      var n := NewNode([SLASH], true, heap);
      n.parent := n;
      root, cwd, snaps := n, n, [];
      this.heap, this.crypto := heap, crypto;
      g, roots := map[n := Rec([SLASH], true, [], Some(n), [], n)], {n};
      new;
      assert NodeOk(g, roots, n);
    }

    // -------------------------------------------------------------- shared parts

    /** How fs_mkdir, fs_touch, fs_write, fs_rename and fs_copy find the place for a new entry.  The
        branches these have for an existing entry are never taken: its last name comes back empty. */
    method PlaceForNew(path: Str) returns (parent: Node?, last: Str)
      requires Valid()
      ensures Target(S(), path) == if parent == null then None else Some((parent, last))
      ensures parent != null ==>
                && parent in g && g[parent].isDir && g[parent].owner == root
                && 1 <= |last| <= NAME_MAX && SLASH !in last && (NUL !in path ==> NUL !in last)
    {
      parent, last := Lookup(root, cwd, path, true, S());
      if parent == null || !parent.isDir || last == [] {
        return null, [];
      }
      TargetGood(S(), path);
      var existing := FindInDir(parent, last, g, roots);
      assert existing == null;
    }

    /** A new entry in front of d's chain, as fs_mkdir, fs_touch, fs_write_cwd and fs_copy make it. */
    method AddChild(d: Node, name: Str, isDir: bool) returns (n: Node?)
      requires Valid() && d in g && g[d].isDir && g[d].owner == root && 1 <= |Clip(name)| && NUL !in name
      modifies this`g, heap, d`child
      ensures Valid() && roots == old(roots)
      ensures n != null <==> Fits(old(heap.offset), NODE_SIZE)
      ensures n == null ==> S() == old(S())
      ensures n != null ==> fresh(n) && n !in old(g) && S() == AddNode(old(S()), d, n, Clip(name), isDir)
      ensures g.Keys == old(g.Keys) + if n == null then {} else {n}
    {
      n := NewNode(name, isDir, heap);
      if n == null {
        return;
      }
      ghost var r := Rec(Clip(name), isDir, [], None, [], root);
      ghost var s := S();
      AddNodeInv(State(g, root, cwd, snaps, roots, s.key, old(heap.offset)), d, n, Clip(name), isDir);
      LinkNew(d, n, r, g, roots);
      g := Attach(g, d, n, r);
    }

    /** A fresh buffer takes the encrypted bytes, as fs_write and fs_write_cwd end. */
    method PutData(node: Node, data: Str) returns (ok: bool)
      requires Valid() && node in g && !g[node].isDir && |data| + 1 + KHEAP_SIZE <= WORDS
      modifies this`g, heap, node`data
      ensures Valid() && roots == old(roots)
      ensures (S(), ok) == Store(old(S()), node, Crypto.Cipher(crypto.Current(), data))
      ensures g.Keys == old(g.Keys)
    {
      ghost var bytes := Crypto.Cipher(crypto.Current(), data);
      StoreInv(S(), node, bytes);
      var bytes' := Encrypted(data, heap, crypto);
      match bytes' {
        case None => ok := false;
        case Some(b) =>
          StoreBytes(node, b, g);
          g := SetData(g, node, bytes);
          ok := true;
      }
    }

    /** A fresh buffer takes a copy of stored bytes, as fs_copy ends. */
    method CopyData(node: Node, data: Str) returns (ok: bool)
      requires Valid() && node in g && !g[node].isDir && |data| < KHEAP_SIZE
      modifies this`g, heap, node`data
      ensures Valid() && roots == old(roots)
      ensures (S(), ok) == Store(old(S()), node, data)
      ensures g.Keys == old(g.Keys)
    {
      StoreInv(S(), node, data);
      var p := heap.Kmalloc(|data| + 1);
      if p == 0 {
        return false;
      }
      var bytes := CopyBytes(data);
      StoreBytes(node, bytes, g);
      g := SetData(g, node, bytes);
      ok := true;
    }

    method Remove(node: Node)
      requires Valid() && Chained(g, node) && node !in roots
      modifies this`g, g.Keys`child, g.Keys`sibling, g.Keys`parent
      ensures Valid() && S() == old(S()).(g := Detach(old(g), node))
      ensures g.Keys == old(g.Keys)
    {
      DetachInv(S(), node);
      DetachFromParent(node, g, roots);
      g := Detach(g, node);
    }

    method Move(src: Node, dir: Node, name: Str)
      requires Valid() && Movable(g, roots, src, dir, name)
      modifies this`g, g.Keys
      ensures Valid() && S() == old(S()).(g := Renamed(old(g), src, dir, name))
      ensures g.Keys == old(g.Keys)
    {
      MoveInv(S(), src, dir, name);
      Relink(src, dir, name, g, roots);
      g := Renamed(g, src, dir, name);
    }

    // -------------------------------------------------------------- making entries

    method Mkdir(path: Str) returns (ok: bool, ghost n: Node)
      requires Valid() && NUL !in path
      modifies this, heap, g.Keys
      ensures Valid() && (S(), ok) == Create(old(S()), path, true, n)
      ensures Steps(old(S()), MkdirOp(path, n), S())
      ensures fresh(g.Keys - old(g.Keys))
    {
      n := root;
      if path == [] || |path| >= PATH_SIZE {
        return false, n;
      }
      var parent, last := PlaceForNew(path);
      if parent == null {
        return false, n;
      }
      var node := AddChild(parent, last, true);
      if node == null {
        return false, n;
      }
      return true, node;
    }

    method Touch(path: Str) returns (ok: bool, ghost n: Node)
      requires Valid() && NUL !in path
      modifies this, heap, g.Keys
      ensures Valid() && (S(), ok) == Create(old(S()), path, false, n)
      ensures Steps(old(S()), TouchOp(path, n), S())
      ensures ok ==> fresh(n)
      ensures fresh(g.Keys - old(g.Keys))
    {
      n := root;
      if path == [] || |path| >= PATH_SIZE {
        return false, n;
      }
      var parent, last := PlaceForNew(path);
      if parent == null {
        return false, n;
      }
      var node := AddChild(parent, last, false);
      if node == null {
        return false, n;
      }
      return true, node;
    }

    /** fs_write */
    method Write(path: Str, data: Str) returns (ok: bool, ghost n: Node)
      requires Valid() && NUL !in path && |data| + 1 + KHEAP_SIZE <= WORDS
      modifies this, heap, g.Keys
      ensures Valid() && (S(), ok) == FsState.Write(old(S()), path, data, n)
      ensures Steps(old(S()), WriteOp(path, data, n), S())
      ensures fresh(g.Keys - old(g.Keys))
    {
      ok, n := false, root;
      var parent, last := PlaceForNew(path);
      if parent != null {
        ok, n := WriteNew(parent, last, path, data);
      }
    }

    /** The rest of fs_write: make the file by its path, look it up by its name, fill it. */
    method WriteNew(parent: Node, last: Str, path: Str, data: Str) returns (ok: bool, ghost n: Node)
      requires Valid() && NUL !in path && |data| + 1 + KHEAP_SIZE <= WORDS && Target(S(), path) == Some((parent, last))
      modifies this, heap, g.Keys
      ensures Valid() && (S(), ok) == FsState.Write(old(S()), path, data, n)
      ensures old(AddsAt(S(), path)) ==> n !in old(g)
      ensures fresh(g.Keys - old(g.Keys))
    {
      ghost var s := S();
      ok, n := Touch(path);
      if ok {
        CreatedIsFound(s, path, n);
        WriteIs(s, path, data, n);
        var node := FindInDir(parent, last, g, roots);
        assert node == n;
        ok := PutData(node, data);
      }
    }

    /** fs_write_cwd */
    method WriteCwd(name: Str, data: Str) returns (ok: bool, ghost n: Node)
      requires Valid() && NUL !in name && |data| + 1 + KHEAP_SIZE <= WORDS
      modifies this, heap, g.Keys
      ensures Valid() && (S(), ok) == FsState.WriteCwd(old(S()), name, data, n)
      ensures Steps(old(S()), WriteCwdOp(name, data, n), S())
      ensures fresh(g.Keys - old(g.Keys))
    {
      n := root;
      assert NodeLinked(g, cwd);
      if name == [] || !cwd.isDir {
        return false, n;
      }
      var node;
      node, n := CwdNode(name);
      if node == null {
        return false, n;
      }
      assert NodeLinked(g, node);
      if node.isDir {
        return false, n;
      }
      ok := PutData(node, data);
    }

    /** The node fs_write_cwd is to fill: the child of that name, or a new file n. */
    method CwdNode(name: Str) returns (node: Node?, ghost n: Node)
      requires Valid() && NUL !in name && name != []
      modifies this`g, heap, cwd`child
      ensures Valid() && (node != null ==> node in g) && roots == old(roots)
      ensures match old(Child(g, cwd, name))
              case Some(m) => node == m && S() == old(S())
              case None =>
                if !Fits(old(heap.offset), NODE_SIZE) then node == null && S() == old(S())
                else node == n && fresh(n) && n !in old(g) && S() == AddNode(old(S()), cwd, n, Clip(name), false)
      ensures g.Keys == old(g.Keys) + if g == old(g) then {} else {n}
    {
      n := root;
      node := FindInDir(cwd, name, g, roots);
      if node != null {
        CwdChildGood(S(), name);
        return;
      }
      node := AddChild(cwd, name, false);
      if node != null {
        n := node;
      }
    }

    /** crypto_set_key */
    method SetKey(key: Str)
      requires Valid()
      modifies crypto, crypto.keyBytes
      ensures Valid() && Steps(old(S()), SetKeyOp(key), S())
    {
      crypto.SetKey(key);
    }

    // -------------------------------------------------------------- reading and moving about

    /** fs_read */
    method Read(path: Str) returns (data: Option<Str>)
      requires Valid()
      modifies heap
      ensures Valid() && (S(), data) == FsState.Read(old(S()), path)
      ensures Steps(old(S()), ReadOp(path), S())
    {
      var node, _ := Lookup(root, cwd, path, false, S());
      if node == null {
        return None;
      }
      data := ReadNode(node, path);
    }

    /** The rest of fs_read, once the node is found. */
    method ReadNode(node: Node, ghost path: Str) returns (data: Option<Str>)
      requires Valid() && Resolve(S(), path) == Some(node)
      modifies heap
      ensures Valid() && (S(), data) == FsState.Read(old(S()), path)
    {
      ResolveGood(S(), path);
      DataFits(S(), node);
      assert NodeLinked(g, node);
      if node.isDir || node.data == [] {
        return None;
      }
      data := Encrypted(node.data, heap, crypto);
    }

    method Chdir(path: Str) returns (ok: bool)
      requires Valid()
      modifies this`cwd
      ensures Valid() && (S(), ok) == FsState.Chdir(old(S()), path)
      ensures Steps(old(S()), ChdirOp(path), S())
    {
      if path == [] {
        return false;
      }
      var node, _ := Lookup(root, cwd, path, false, S());
      if node == null || !node.isDir {
        return false;
      }
      ResolveGood(S(), path);
      Enter(node);
      ok := true;
    }

    method Enter(dir: Node)
      requires Valid() && dir in g && g[dir].isDir && g[dir].owner == root
      modifies this`cwd
      ensures Valid() && S() == old(S()).(cwd := dir)
    {
      cwd := dir;
    }

    // -------------------------------------------------------------- removing and moving entries

    method Unlink(path: Str) returns (ok: bool)
      requires Valid()
      modifies this`g, g.Keys
      ensures Valid() && (S(), ok) == FsState.Unlink(old(S()), path)
      ensures Steps(old(S()), UnlinkOp(path), S())
      ensures g.Keys == old(g.Keys)
    {
      if path == [] {
        return false;
      }
      var node, _ := Lookup(root, cwd, path, false, S());
      if node == null || node.isDir {
        return false;
      }
      ResolveGood(S(), path);
      assert NodeLinked(g, node);
      Remove(node);
      ok := true;
    }

    method Rmdir(path: Str) returns (ok: bool)
      requires Valid()
      modifies this`g, g.Keys
      ensures Valid() && (S(), ok) == FsState.Rmdir(old(S()), path)
      ensures Steps(old(S()), RmdirOp(path), S())
      ensures g.Keys == old(g.Keys)
    {
      if path == [] {
        return false;
      }
      var node, _ := Lookup(root, cwd, path, false, S());
      if node == null {
        return false;
      }
      ok := RemoveDir(node, path);
    }

    /** The rest of fs_rmdir, once the node is found. */
    method RemoveDir(node: Node, ghost path: Str) returns (ok: bool)
      requires Valid() && Resolve(S(), path) == Some(node)
      modifies this`g, g.Keys
      ensures Valid() && (S(), ok) == FsState.Rmdir(old(S()), path)
      ensures g.Keys == old(g.Keys)
    {
      ResolveGood(S(), path);
      assert NodeLinked(g, node);
      if !node.isDir || node.child != null || node == root {
        return false;
      }
      Remove(node);
      ok := true;
    }

    method Rename(oldPath: Str, newPath: Str) returns (ok: bool)
      requires Valid() && NUL !in newPath
      modifies this`g, g.Keys
      ensures Valid() && (S(), ok) == FsState.Rename(old(S()), oldPath, newPath)
      ensures Steps(old(S()), RenameOp(oldPath, newPath), S())
      ensures g.Keys == old(g.Keys)
    {
      var src, _ := Lookup(root, cwd, oldPath, false, S());
      if src == null {
        return false;
      }
      ok := RenameNode(src, oldPath, newPath);
    }

    /** The rest of fs_rename, once the source is found. */
    method RenameNode(src: Node, ghost oldPath: Str, newPath: Str) returns (ok: bool)
      requires Valid() && NUL !in newPath && Resolve(S(), oldPath) == Some(src)
      modifies this`g, g.Keys
      ensures Valid() && (S(), ok) == FsState.Rename(old(S()), oldPath, newPath)
      ensures g.Keys == old(g.Keys)
    {
      var dstParent, last := PlaceForNew(newPath);
      if dstParent == null {
        return false;
      }
      if src == root {
        return false;
      }
      RenameMovable(S(), oldPath, newPath);
      Move(src, dstParent, last);
      ok := true;
    }

    /** fs_copy */
    method Copy(srcPath: Str, dstPath: Str) returns (ok: bool, ghost n: Node)
      requires Valid() && NUL !in dstPath
      modifies this`g, heap, g.Keys
      ensures Valid() && (S(), ok) == FsState.Copy(old(S()), srcPath, dstPath, n)
      ensures Steps(old(S()), CopyOp(srcPath, dstPath, n), S())
      ensures fresh(g.Keys - old(g.Keys))
    {
      ok, n := false, root;
      var src, _ := Lookup(root, cwd, srcPath, false, S());
      if src == null {
        return;
      }
      if src.isDir {
        return;
      }
      assert NodeLinked(g, src);
      var dstParent, last := PlaceForNew(dstPath);
      if dstParent != null {
        DataFits(S(), src);
        ok, n := CopyNew(src.data, dstParent, last);
      }
    }

    /** The rest of fs_copy: make the new file and copy the stored bytes into it. */
    method CopyNew(data: Str, dir: Node, last: Str) returns (ok: bool, ghost n: Node)
      requires Valid() && |data| < KHEAP_SIZE
      requires dir in g && g[dir].isDir && g[dir].owner == root && 1 <= |last| <= NAME_MAX && NUL !in last
      modifies this`g, heap, g.Keys
      ensures Valid() && (S(), ok) == CopyInto(old(S()), dir, n, last, data)
      ensures Fits(old(heap.offset), NODE_SIZE) ==> n !in old(g)
      ensures fresh(g.Keys - old(g.Keys))
    {
      ok, n := false, root;
      var node := AddChild(dir, last, false);
      if node != null {
        n := node;
        ok := true;
        if data != [] {
          ok := CopyData(node, data);
        }
      }
    }

    // -------------------------------------------------------------- snapshots

    method FindSnapshot(name: Str) returns (r: Node?)
      ensures FindSnap(snaps, name) == if r == null then None else Some(r)
    {
      var i := 0;
      assert snaps[0..] == snaps;
      while i < |snaps|
        invariant 0 <= i <= |snaps| && FindSnap(snaps[i..], name) == FindSnap(snaps, name)
      {
        assert snaps[i..][1..] == snaps[i + 1..];
        if snaps[i].name == name {
          return snaps[i].root;
        }
        i := i + 1;
      }
      r := null;
    }

    /** fs_snap_create */
    method SnapCreate(name: Str) returns (ok: bool, ghost h: Graph<Node>, ghost c: Node, ghost used: nat)
      requires Valid()
      modifies this, heap
      ensures Valid() && (S(), ok) == FsState.SnapCreate(old(S()), name, h, c, used)
      ensures Steps(old(S()), SnapCreateOp(name, h, c, used), S())
      ensures fresh(g.Keys - old(g.Keys))
    {
      ok, h, c, used := false, map[], root, 0;
      var same := FindSnapshot(name);
      if name != [] && |name| < SNAP_NAME_MAX + 1 && same == null {
        ok, h, c, used := SnapNew(name);
      }
    }

    /** The rest of fs_snap_create, once the name is known to be new. */
    method SnapNew(name: Str) returns (ok: bool, ghost h: Graph<Node>, ghost c: Node, ghost used: nat)
      requires Valid() && SnapNameOk(S(), name)
      modifies this, heap
      ensures Valid() && (S(), ok) == FsState.SnapCreate(old(S()), name, h, c, used)
      ensures Fits(old(heap.offset), NODE_SIZE) ==> IsClone(old(S()), h, c, used)
      ensures fresh(g.Keys - old(g.Keys))
    {
      ok, h, c, used := false, map[], root, 0;
      ghost var s := S();
      var copy: Node?;
      copy, h, used := CloneRoot();
      if copy != null {
        c := copy;
        ok := AddSnapshot(name, copy, h);
      }
    }

    /** The new list element. */
    method AddSnapshot(name: Str, copy: Node, ghost h: Graph<Node>) returns (ok: bool)
      requires Valid() && Linked(h) && Wf(h, {copy}) && g.Keys !! h.Keys && copy in h
      requires FindSnap(snaps, name) == None
      modifies this`snaps, this`g, this`roots, heap
      ensures Valid() && ok == Fits(old(heap.offset), SNAP_SIZE)
      ensures if ok then S() == old(S()).(g := old(g) + h, snaps := [Snap(name, copy)] + old(snaps),
                                          roots := old(roots) + {copy}, used := old(heap.offset) + SNAP_SIZE)
              else S() == old(S())
      ensures g.Keys == old(g.Keys) + if ok then h.Keys else {}
    {
      var p := heap.Kmalloc(SNAP_SIZE);
      if p == 0 {
        return false;
      }
      SnapsOkCons(snaps, roots, name, copy);
      UnionWf(g, roots, h, copy);
      UnionLinked(g, h, roots, copy);
      snaps, g, roots := [Snap(name, copy)] + snaps, g + h, roots + {copy};
      ok := true;
    }

    /** The clone of the live tree, made its own root. */
    method CloneRoot() returns (copy: Node?, ghost h: Graph<Node>, ghost used: nat)
      requires Valid()
      modifies heap
      ensures Valid() && S() == old(S()).(used := used) && heap.offset == used
      ensures copy == null <==> !Fits(old(heap.offset), NODE_SIZE)
      ensures copy == null ==> used == old(heap.offset)
      ensures copy != null ==> copy in h && IsClone(old(S()), h, copy, used) && Linked(h)
      ensures fresh(h.Keys)
    {
      ghost var f := RootHasShape(g, roots, root);
      ghost var s := S();
      RootChain(g, roots, root);
      ghost var top;
      copy, h, top := CloneTree(root, null, heap, g, roots, [root], f);
      used := heap.offset;
      if copy != null {
        SoleTop(g, root, h, copy, top);
        MakeRoot(copy, h);
        CloneDone(s, f, h, copy, top);
        h := Rooted(h, copy);
      }
    }

    /** fs_snap_restore */
    method SnapRestore(name: Str) returns (ok: bool)
      requires Valid()
      modifies this`root, this`cwd
      ensures Valid() && (S(), ok) == FsState.SnapRestore(old(S()), name)
      ensures Steps(old(S()), SnapRestoreOp(name), S())
    {
      if name == [] {
        return false;
      }
      var r := FindSnapshot(name);
      if r == null {
        return false;
      }
      SnapRestoreInv(S(), name);
      root, cwd := r, r;
      ok := true;
    }
  }

  /** The encrypted bytes in a buffer of their own, or nothing when the buffer does not fit. */
  method Encrypted(data: Str, heap: Heap, crypto: Crypto.Engine) returns (r: Option<Str>)
    requires heap.Valid() && crypto.Valid() && |data| + 1 + KHEAP_SIZE <= WORDS
    modifies heap
    ensures heap.Valid() && r.Some? == Fits(old(heap.offset), |data| + 1)
    ensures r.None? ==> heap.offset == old(heap.offset)
    ensures r.Some? ==>
              r.value == Crypto.Cipher(crypto.Current(), data) && heap.offset == old(heap.offset) + |data| + 1
  {
    var p := heap.Kmalloc(|data| + 1);
    if p == 0 {
      return None;
    }
    var buf := new Byte[|data| + 1];
    crypto.Apply(data, buf);
    buf[|data|] := NUL;
    assert buf[..|data|] == Crypto.Cipher(crypto.Current(), data);
    return Some(buf[..|data|]);
  }

  lemma WriteIs(s: State<Node>, path: Str, data: Str, n: Node)
    requires Create(s, path, false, n).1
    ensures var t := Create(s, path, false, n).0;
            n in t.g && FsState.Write(s, path, data, n) == Store(t, n, Crypto.Cipher(s.key, data))
  {
  }

  /** After fs_touch the directory's chain holds the new file under its name. */
  lemma CreatedIsFound(s: State<Node>, path: Str, n: Node)
    requires Inv(s) && n !in s.g && NUL !in path && Create(s, path, false, n).1
    ensures Target(s, path).Some?
    ensures var t := Create(s, path, false, n).0; var (d, name) := Target(s, path).value;
            && d in t.g && Child(t.g, d, name) == Some(n) && n in t.g && !t.g[n].isDir
  {
    TargetGood(s, path);
    var (d, name) := Target(s, path).value;
    ChildAttach(s.g, s.roots, d, n, Rec(name, false, [], None, [], s.root), d, name);
  }
}
