/** The directories the publish routes read and write, and the two copy loops
    they share: every file of the scenes directory is written under its own
    name into the destination's scenes directory (the entry file `Mainmenu.ts`
    rewritten first), and every regular top-level file other than `scenes` is
    written under its own name into the destination root. */
module Tree {
  import opened Base

  /** What `lstat` reports for a directory entry, with a regular file's text. */
  datatype DirEntry = File(text: string) | Directory | Symlink

  /** The source side: the scenes directory and the top-level directory, each as
      the names `readdir` lists, in its order, and what every name holds. */
  datatype Source = Source(
    sceneNames: seq<string>, scenes: map<string, string>,
    topNames: seq<string>, top: map<string, DirEntry>)

  /** The destination side: the files of the destination root and of its
      scenes directory. */
  datatype Dest = Dest(root: map<string, string>, scenes: map<string, string>)

  /** The request body both routes read: `title`, the `buttons` labels if the
      body has them, and `wallet`. */
  datatype Body = Body(title: JsValue, buttons: Option<seq<string>>, wallet: JsValue)

  /** A listing names exactly the entries of its directory, each once. */
  predicate Lists<T>(names: seq<string>, entries: map<string, T>)
  {
    && (forall i :: 0 <= i < |names| ==> names[i] in entries)
    && (forall f :: f in entries ==> f in names)
    && (forall i, j :: 0 <= i < j < |names| ==> names[i] != names[j])
  }

  predicate WellFormed(src: Source)
  {
    Lists(src.sceneNames, src.scenes) && Lists(src.topNames, src.top)
  }

  /** The file the scene loop rewrites. */
  const EntryName: string := "Mainmenu.ts"

  /** The directory name the top-level loop skips. */
  const ScenesName: string := "scenes"

  /** Index of the last occurrence of c in s. */
  function LastIndex(s: string, c: char): (r: Option<nat>)
    decreases |s|
    ensures r.Some? ==> r.value < |s| && s[r.value] == c && c !in s[r.value + 1..]
    ensures r.None? ==> c !in s
  {
    if |s| == 0 then None
    else if s[|s| - 1] == c then Some(|s| - 1)
    else
      var r := LastIndex(s[..|s| - 1], c);
      assert s == s[..|s| - 1] + [s[|s| - 1]];
      if r.Some? then assert s[r.value + 1..] == s[..|s| - 1][r.value + 1..] + [s[|s| - 1]]; r
      else r
  }

  /** `path.extname` of a directory entry name: from its last '.' to the end,
      unless that '.' is the first character (a dot file has no extension) or
      the name is `..`. */
  function ExtName(f: string): (e: string)
    ensures |e| < |f| || e == ""
    ensures |e| <= |f| && f[|f| - |e|..] == e
    ensures |e| > 0 ==> e[0] == '.' && '.' !in e[1..]
  {
    match LastIndex(f, '.')
    case Some(p) => if p > 0 && f != ".." then f[p..] else ""
    case None => ""
  }

  /** `path.basename(f, ext)` of a directory entry name: the name without the
      suffix ext when it ends with ext, the empty string when it is ext. */
  function BaseName(f: string, ext: string): (b: string)
    ensures ext == f && |ext| > 0 ==> b == ""
    ensures ext != f && |ext| <= |f| && f[|f| - |ext|..] == ext ==> b == f[..|f| - |ext|]
  {
    if |ext| > 0 && |ext| <= |f| && f == ext then ""
    else if |ext| <= |f| && f[|f| - |ext|..] == ext then f[..|f| - |ext|]
    else f
  }

  /** `${path.basename(file, path.extname(file))}${path.extname(file)}`. */
  function OutputName(f: string): string
  {
    BaseName(f, ExtName(f)) + ExtName(f)
  }

  /** Both loops write each file under the name it was read from. */
  lemma OutputNameKeeps(f: string)
    ensures OutputName(f) == f
  {
    var e := ExtName(f);
    assert f[..|f| - |e|] + f[|f| - |e|..] == f;
  }

  /** What the scene loop writes for one scene file. */
  function SceneContents(f: string, text: string, entry: string -> string): (r: string)
    ensures f != EntryName ==> r == text
    ensures f == EntryName ==> r == entry(text)
  {
    if f == EntryName then entry(text) else text
  }

  /** The scene loop: read each listed file, rewrite the entry file, write the
      result under the output name, in listing order. */
  function WriteScenes(names: seq<string>, scenes: map<string, string>, entry: string -> string,
                       out: map<string, string>): map<string, string>
    requires forall i :: 0 <= i < |names| ==> names[i] in scenes
    decreases |names|
  {
    if |names| == 0 then out
    else
      var f := names[0];
      WriteScenes(names[1..], scenes, entry, out[OutputName(f) := SceneContents(f, scenes[f], entry)])
  }

  /** The top-level loop copies this entry. */
  predicate Copied(f: string, top: map<string, DirEntry>)
  {
    f in top && f != ScenesName && top[f].File?
  }

  /** The top-level loop: skip `scenes`, skip whatever `lstat` does not call a
      regular file, copy the rest under the output name, in listing order. */
  function WriteTop(names: seq<string>, top: map<string, DirEntry>, out: map<string, string>): map<string, string>
    requires forall i :: 0 <= i < |names| ==> names[i] in top
    decreases |names|
  {
    if |names| == 0 then out
    else
      var f := names[0];
      WriteTop(names[1..], top, if Copied(f, top) then out[OutputName(f) := top[f].text] else out)
  }

  /** Both loops, scenes first, as the routes run them when nothing fails. */
  function Publish(src: Source, dest: Dest, entry: string -> string): Dest
    requires WellFormed(src)
  {
    Dest(WriteTop(src.topNames, src.top, dest.root),
         WriteScenes(src.sceneNames, src.scenes, entry, dest.scenes))
  }

  /** The scene loop, stated without the loop: each listed file lands under
      its own name with its (rewritten) contents; every other destination
      file is left as it was. */
  lemma {:induction false} WriteScenesSpec(names: seq<string>, scenes: map<string, string>,
                                           entry: string -> string, out: map<string, string>)
    requires forall i :: 0 <= i < |names| ==> names[i] in scenes
    ensures var r := WriteScenes(names, scenes, entry, out);
      && (forall f :: f in r <==> f in out || f in names)
      && (forall f :: f in names ==> r[f] == SceneContents(f, scenes[f], entry))
      && (forall f :: f in out && f !in names ==> r[f] == out[f])
    decreases |names|
  {
    if |names| > 0 {
      var f := names[0];
      OutputNameKeeps(f);
      var out' := out[f := SceneContents(f, scenes[f], entry)];
      WriteScenesSpec(names[1..], scenes, entry, out');
      assert forall g :: g in names <==> g == f || g in names[1..] by {
        assert names == [f] + names[1..];
      }
    }
  }

  /** The top-level loop, stated without the loop. */
  lemma {:induction false} WriteTopSpec(names: seq<string>, top: map<string, DirEntry>, out: map<string, string>)
    requires forall i :: 0 <= i < |names| ==> names[i] in top
    ensures var r := WriteTop(names, top, out);
      && (forall f :: f in r <==> f in out || (f in names && Copied(f, top)))
      && (forall f :: f in names && Copied(f, top) ==> r[f] == top[f].text)
      && (forall f :: f in out && !(f in names && Copied(f, top)) ==> r[f] == out[f])
    decreases |names|
  {
    if |names| > 0 {
      var f := names[0];
      OutputNameKeeps(f);
      var out' := if Copied(f, top) then out[f := top[f].text] else out;
      WriteTopSpec(names[1..], top, out');
      assert forall g :: g in names <==> g == f || g in names[1..] by {
        assert names == [f] + names[1..];
      }
    }
  }

  /** The published tree, stated without loops: scene files (the entry file
      rewritten) and regular top-level files other than `scenes`, each under
      its own name, over the destination as it was. */
  lemma PublishSpec(src: Source, dest: Dest, entry: string -> string)
    requires WellFormed(src)
    ensures var r := Publish(src, dest, entry);
      && (forall f :: f in r.scenes <==> f in dest.scenes || f in src.scenes)
      && (forall f :: f in src.scenes ==> r.scenes[f] == SceneContents(f, src.scenes[f], entry))
      && (forall f :: f in dest.scenes && f !in src.scenes ==> r.scenes[f] == dest.scenes[f])
      && (forall f :: f in r.root <==> f in dest.root || Copied(f, src.top))
      && (forall f :: Copied(f, src.top) ==> r.root[f] == src.top[f].text)
      && (forall f :: f in dest.root && !Copied(f, src.top) ==> r.root[f] == dest.root[f])
  {
    WriteScenesSpec(src.sceneNames, src.scenes, entry, dest.scenes);
    WriteTopSpec(src.topNames, src.top, dest.root);
  }

  /** The published tree does not depend on the order `readdir` lists names in. */
  lemma PublishOrderIrrelevant(src1: Source, src2: Source, dest: Dest, entry: string -> string)
    requires WellFormed(src1) && WellFormed(src2)
    requires src1.scenes == src2.scenes && src1.top == src2.top
    ensures Publish(src1, dest, entry) == Publish(src2, dest, entry)
  {
    PublishSpec(src1, dest, entry);
    PublishSpec(src2, dest, entry);
    var r1, r2 := Publish(src1, dest, entry), Publish(src2, dest, entry);
    MapsAgree(r1.scenes, r2.scenes);
    MapsAgree(r1.root, r2.root);
  }

  lemma MapsAgree(m1: map<string, string>, m2: map<string, string>)
    requires forall f :: f in m1 <==> f in m2
    requires forall f :: f in m1 ==> m1[f] == m2[f]
    ensures m1 == m2
  {
  }
}
