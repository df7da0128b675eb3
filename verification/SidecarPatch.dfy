/** The rewrite of the sidecar's YAML text: remove the block injected before, then inject a new
    one before the first `committer:` line. */
module SidecarPatch {
  import opened Lines
  import opened Strings

  /** The block that the program looks for starts like this. */
  function Marker(): (m: string)
    ensures |m| == 34
  {
    "\n  connection:\n    root-ca-paths:\n"
  }

  function Head(): string {
    "  connection:\n    root-ca-paths:\n"
  }

  function Key(): (k: string)
    ensures |k| == 11
  {
    "committer:\n"
  }

  function KeyLine(): (k: string)
    ensures |k| == 12
  {
    "\ncommitter:\n"
  }

  function Item(): string {
    "      - "
  }

  /** Removes the block injected before, from the newline before it to the one that ends it. */
  function Strip(t: string): string {
    var idx := Index(t, Marker());
    if idx.None? then t
    else
      var tail := t[idx.value + 1..];
      var end := Index(tail, KeyLine());
      if end.None? then t else t[..idx.value] + t[idx.value + 1 + end.value..]
  }

  function Block(paths: seq<string>): (b: string)
    ensures |b| >= |Head()|
  {
    if paths == [] then Head() else Block(paths[..|paths| - 1]) + Item() + paths[|paths| - 1] + "\n"
  }

  /** `strings.Replace` of the first key by the block and the key. */
  function Inject(t: string, block: string): string {
    var j := Index(t, Key());
    if j.None? then t else t[..j.value] + block + t[j.value..]
  }

  function Patch(t: string, paths: seq<string>): string {
    Inject(Strip(t), Block(paths))
  }

  /** The loop that builds the block. */
  method BlockText(paths: seq<string>) returns (insert: string)
    ensures insert == Block(paths)
  {
    hide Head, Item;
    insert := Head();
    for i := 0 to |paths|
      invariant insert == Block(paths[..i])
    {
      assert paths[..i + 1][..i] == paths[..i];
      insert := insert + Item() + paths[i] + "\n";
    }
    assert paths[..|paths|] == paths;
  }

  /** The lines of a block, letter by letter. */
  ghost function BlockLines(paths: seq<string>): string {
    if paths == [] then "  connection:\n    root-ca-paths:\n"
    else BlockLines(paths[..|paths| - 1]) + "      - " + paths[|paths| - 1] + "\n"
  }

  lemma Spelled()
    ensures Marker() == "\n  connection:\n    root-ca-paths:\n" && Head() == "  connection:\n    root-ca-paths:\n"
    ensures Key() == "committer:\n" && KeyLine() == "\ncommitter:\n" && Item() == "      - "
  {
  }

  lemma {:induction false} BlockIsLines(paths: seq<string>)
    ensures Block(paths) == BlockLines(paths)
  {
    Spelled();
    hide Head, Item;
    if paths != [] {
      BlockIsLines(paths[..|paths| - 1]);
    }
  }

  lemma BlockLinesNext(paths: seq<string>, i: nat)
    requires i < |paths|
    ensures BlockLines(paths[..i + 1]) == BlockLines(paths[..i]) + "      - " + paths[i] + "\n"
    ensures BlockLines(paths[..0]) == "  connection:\n    root-ca-paths:\n"
  {
    assert paths[..i + 1][..i] == paths[..i];
  }

  /** The program's rewrite, letter by letter: what is removed, and what is put where. */
  lemma PatchSpelled(t: string, paths: seq<string>)
    ensures var m := Index(t, "\n  connection:\n    root-ca-paths:\n");
      && (m.None? ==> Strip(t) == t)
      && (m.Some? ==> m.value < |t| && var e := Index(t[m.value + 1..], "\ncommitter:\n");
            if e.None? then Strip(t) == t
            else m.value + 1 + e.value <= |t| && Strip(t) == t[..m.value] + t[m.value + 1 + e.value..])
    ensures var u, j := Strip(t), Index(Strip(t), "committer:\n");
      if j.None? then Patch(t, paths) == u
      else j.value <= |u| && Patch(t, paths) == u[..j.value] + BlockLines(paths) + u[j.value..]
  {
    Spelled();
    BlockIsLines(paths);
    hide Marker, Key, KeyLine, Block, Index, BlockLines;
  }

  /** The rewrite as the program performs it. */
  method PatchText(text0: string, paths: seq<string>) returns (text: string)
    ensures text == Patch(text0, paths)
    ensures Absent(text0, "\n  connection:\n    root-ca-paths:\n") ==> var j := Index(text0, "committer:\n");
      if j.None? then text == text0
      else j.value <= |text0| && text == text0[..j.value] + BlockLines(paths) + text0[j.value..]
  {
    PatchSpelled(text0, paths);
    hide Marker, Key, KeyLine, Head, Item, Index, Block;
    text := text0;
    var idx := Index(text, Marker());
    if idx.Some? {
      var tail := text[idx.value + 1..];
      var end := Index(tail, KeyLine());
      if end.Some? {
        text := text[..idx.value] + text[idx.value + 1 + end.value..];
      }
    }
    assert text == Strip(text0);
    var insert := BlockText(paths);
    var at := Index(text, Key());
    if at.Some? {
      text := text[..at.value] + insert + text[at.value..];
    }
  }

  lemma Assoc3(a: string, b: string, c: string, d: string)
    ensures a + b + c + d == a + (b + c + d)
  {
  }

  lemma {:induction false} BlockGrows(paths: seq<string>, i: nat)
    requires i <= |paths|
    ensures Block(paths[..i]) <= Block(paths)
  {
    hide Head, Item;
    if i == |paths| {
      assert paths[..i] == paths;
    } else {
      var init := paths[..|paths| - 1];
      BlockGrows(init, i);
      assert init[..i] == paths[..i];
      Assoc3(Block(init), Item(), paths[|paths| - 1], "\n");
    }
  }

  /** The block lists every path on a line of its own, in order, after its head. */
  lemma {:induction false} BlockListsPaths(paths: seq<string>, i: nat)
    requires i < |paths|
    ensures Block([]) == "  connection:\n    root-ca-paths:\n"
    ensures Head() <= Block(paths[..i]) && Block(paths[..i + 1]) <= Block(paths)
    ensures Block(paths[..i + 1]) == Block(paths[..i]) + "      - " + paths[i] + "\n"
  {
    Spelled();
    hide Head, Item;
    assert paths[..i + 1][..i] == paths[..i];
    BlockGrows(paths, i + 1);
    BlockGrows(paths[..i], 0);
    assert paths[..i][..0] == [];
    Assoc3(Block(paths[..i]), Item(), paths[i], "\n");
  }

  ghost predicate NewlineFreePaths(paths: seq<string>) {
    forall i :: 0 <= i < |paths| ==> forall k :: 0 <= k < |paths[i]| ==> paths[i][k] != '\n'
  }

  /** The text's first key starts a line that is not the first of the text. */
  predicate KeyStartsLine(t: string) {
    var j := Index(t, Key());
    j.Some? && 0 < j.value && t[j.value - 1] == '\n'
  }

  // ----- what the constants look like -----

  lemma MarkerIsHead()
    ensures Marker() == "\n" + Head()
  {
  }

  lemma HeadFacts()
    ensures |Head()| == 33
    ensures Head()[0] == ' ' && Head()[2] == 'c' && Head()[13] == '\n' && Head()[14] == ' ' && Head()[16] == ' '
    ensures Head()[19] == 'o' && Head()[32] == '\n'
    ensures forall d :: 0 <= d < 33 && Head()[d] == '\n' ==> d == 13 || d == 32
  {
  }

  lemma MarkerFacts()
    ensures |Marker()| == 34 && |Head()| == 33 && Marker() == "\n" + Head()
    ensures Marker()[0] == '\n' && Marker()[14] == '\n' && Marker()[33] == '\n'
    ensures forall d :: 0 <= d < 34 && Marker()[d] == '\n' ==> d == 0 || d == 14 || d == 33
    ensures Marker()[1] == ' ' && Marker()[15] == ' ' && Marker()[3] == 'c' && Marker()[17] == ' ' && Marker()[20] == 'o'
    ensures Head()[0] == ' ' && Head()[2] == 'c' && Head()[13] == '\n' && Head()[14] == ' ' && Head()[16] == ' '
    ensures Head()[32] == '\n'
    ensures forall d :: 0 <= d < 33 && Head()[d] == '\n' ==> d == 13 || d == 32
  {
    hide Head, Marker;
    HeadFacts();
    MarkerIsHead();
    assert forall d :: 1 <= d < 34 ==> Marker()[d] == Head()[d - 1];
  }

  lemma KeyFacts()
    ensures |Key()| == 11 && |KeyLine()| == 12 && KeyLine() == "\n" + Key()
    ensures Key()[0] == 'c' && KeyLine()[0] == '\n' && KeyLine()[1] == 'c'
  {
  }

  /** Every line of the block but the first starts with four spaces, and the block ends a line. */
  ghost predicate BlockShape(b: string) {
    && |b| >= 33 && b[..33] == Head() && b[|b| - 1] == '\n'
    && forall q :: 0 <= q < |b| - 1 && b[q] == '\n' ==> q + 3 < |b| && b[q + 1] == ' ' && b[q + 3] == ' '
  }

  lemma ItemKeepsShape(b: string, p: string)
    requires BlockShape(b) && forall k :: 0 <= k < |p| ==> p[k] != '\n'
    ensures BlockShape(b + Item() + p + "\n")
  {
    var c := b + Item() + p + "\n";
    assert |Item()| == 8 && Item()[0] == ' ' && Item()[2] == ' ';
    assert forall k :: 0 <= k < 8 ==> Item()[k] != '\n';
    assert forall q :: |b| <= q < |b| + 8 ==> c[q] == Item()[q - |b|];
    assert forall q :: |b| + 8 <= q < |c| - 1 ==> c[q] == p[q - |b| - 8];
    assert c[..33] == b[..33];
    assert forall q :: 0 <= q < |b| ==> c[q] == b[q];
    assert c[|b|] == Item()[0] && c[|b| + 2] == Item()[2];
  }

  lemma {:induction false} BlockHasShape(paths: seq<string>)
    requires NewlineFreePaths(paths)
    ensures BlockShape(Block(paths))
  {
    MarkerFacts();
    if paths == [] {
    } else {
      var n := |paths|;
      BlockHasShape(paths[..n - 1]);
      ItemKeepsShape(Block(paths[..n - 1]), paths[n - 1]);
    }
  }

  // ----- the injected text -----

  lemma SliceOfSlice(t: string, from: nat, n: nat, i: nat, j: nat)
    requires from + n <= |t| && i <= j <= n
    ensures t[from..from + n][i..j] == t[from + i..from + j]
  {
    var a, b := t[from..from + n][i..j], t[from + i..from + j];
    assert forall k :: 0 <= k < j - i ==> a[k] == t[from..from + n][i + k];
    assert forall k :: 0 <= k < j - i ==> b[k] == t[from + i + k];
    assert a == b;
  }

  /** An occurrence that lies in a part of a text is an occurrence in that part. */
  lemma OccursInPart(t: string, from: nat, n: nat, p: string, i: nat)
    requires from + n <= |t| && from <= i && i + |p| <= from + n
    ensures Occurs(t, p, i) <==> Occurs(t[from..from + n], p, i - from)
  {
    SliceOfSlice(t, from, n, i - from, i - from + |p|);
  }

  lemma CharAt(t: string, p: string, i: nat, k: nat)
    requires Occurs(t, p, i) && k < |p|
    ensures t[i + k] == p[k]
  {
    assert t[i..i + |p|][k] == t[i + k];
  }

  lemma CharDiffers(t: string, p: string, i: nat, k: nat)
    requires i + k < |t| && k < |p| && t[i + k] != p[k]
    ensures !Occurs(t, p, i)
  {
    if Occurs(t, p, i) {
      CharAt(t, p, i, k);
    }
  }

  lemma HeadAt(t: string, b: string, j: nat, k: nat)
    requires j + |b| <= |t| && t[j..j + |b|] == b && BlockShape(b) && k < 33
    ensures t[j + k] == Head()[k] == Marker()[k + 1]
  {
    MarkerFacts();
    hide Marker, Head, Key;
    assert t[j..j + |b|][k] == t[j + k];
    assert b[..33][k] == b[k];
  }

  /** No marker starts in the text before the block and reaches into it, except one whose first
      newline is the last character before the block. */
  lemma NoMarkerAcross(t: string, b: string, j: nat, i: nat)
    requires j + |b| <= |t| && t[j..j + |b|] == b && BlockShape(b)
    requires i < j < i + 34
    ensures Occurs(t, Marker(), i) ==> i == j - 1
  {
    MarkerFacts();
    hide Marker, Head, Key;
    var d := j - 1 - i;
    if 0 < d {
      HeadAt(t, b, j, 32 - d);
      HeadAt(t, b, j, 0);
      if Marker()[33 - d] != '\n' {
        CharDiffers(t, Marker(), i, 33);
      } else {
        CharDiffers(t, Marker(), i, 20);
      }
    }
  }

  /** No marker starts inside the block when the text goes on with the key. */
  lemma NoMarkerInside(t: string, b: string, j: nat, i: nat)
    requires j + |b| < |t| && t[j..j + |b|] == b && BlockShape(b) && t[j + |b|] == 'c'
    requires j <= i < j + |b|
    ensures !Occurs(t, Marker(), i)
  {
    MarkerFacts();
    hide Marker, Head, Key;
    var q := i - j;
    assert t[j..j + |b|][q] == t[j + q] == b[q];
    if b[q] != '\n' {
      CharDiffers(t, Marker(), i, 0);
    } else if q < |b| - 1 {
      assert t[j..j + |b|][q + 3] == t[j + (q + 3)] == b[q + 3];
      CharDiffers(t, Marker(), i, 3);
    } else {
      CharDiffers(t, Marker(), i, 1);
    }
  }

  /** Where the key is after the injection. */
  lemma InjectedText(t: string, b: string, j: nat)
    requires Occurs(t, Key(), j)
    ensures var p := t[..j] + b + t[j..];
      && p[..j] == t[..j] && p[j..j + |b|] == b && p[j + |b|..] == t[j..]
      && Occurs(p, Key(), j + |b|) && p[j + |b|] == 'c'
  {
    KeyFacts();
    hide Key;
    var p := t[..j] + b + t[j..];
    assert p[j + |b|..] == t[j..];
    CharAt(t, Key(), j, 0);
    assert p[j + |b|..j + |b| + 11] == t[j..j + 11];
  }

  ghost predicate NoMarkerBefore(t: string, j: nat) {
    forall i: nat :: i < j ==> !Occurs(t, Marker(), i)
  }

  /** What lies before the block holds the markers of the text. */
  lemma MarkersInFront(t: string, j: nat, p: string, i: nat)
    requires j <= |t| && j <= |p| && p[..j] == t[..j] && i + 34 <= j
    ensures Occurs(p, Marker(), i) <==> Occurs(t, Marker(), i)
  {
    MarkerFacts();
    hide Marker, Head;
    OccursInPart(p, 0, j, Marker(), i);
    OccursInPart(t, 0, j, Marker(), i);
    assert p[0..0 + j] == p[..j] && t[0..0 + j] == t[..j];
  }

  /** What lies before and behind the block holds no marker. */
  lemma NoMarkerOutside(t: string, b: string, j: nat, p: string, i: nat)
    requires Absent(t, Marker()) && j <= |t| && |p| == |t| + |b|
    requires p[..j] == t[..j] && p[j + |b|..] == t[j..]
    requires i + 34 <= j || (j + |b| <= i)
    ensures !Occurs(p, Marker(), i)
  {
    MarkerFacts();
    hide Marker, Head, Key;
    if i + 34 <= j {
      MarkersInFront(t, j, p, i);
    } else if i + 34 <= |p| {
      var n := |t| - j;
      OccursInPart(p, j + |b|, n, Marker(), i);
      OccursInPart(t, j, n, Marker(), i - |b|);
      assert p[j + |b|..j + |b| + n] == p[j + |b|..] && t[j..j + n] == t[j..];
    }
  }

  lemma NoMarkerMidLine(t: string, b: string, j: nat, p: string)
    requires Absent(t, Marker()) && BlockShape(b) && j <= |t| && |p| == |t| + |b|
    requires p[..j] == t[..j] && p[j..j + |b|] == b && p[j + |b|..] == t[j..]
    requires j < |t| && p[j + |b|] == 'c' && (j > 0 ==> t[j - 1] != '\n')
    ensures Absent(p, Marker())
  {
    MarkerFacts();
    hide Marker, Head, Key;
    forall i: nat
      ensures !Occurs(p, Marker(), i)
    {
      if i + 34 <= j || j + |b| <= i {
        NoMarkerOutside(t, b, j, p, i);
      } else if i < j {
        NoMarkerAcross(p, b, j, i);
        if i == j - 1 {
          assert p[i] == p[..j][i] == t[i];
          CharDiffers(p, Marker(), i, 0);
        }
      } else {
        NoMarkerInside(p, b, j, i);
      }
    }
  }

  /** After an injection in the middle of a line, or at the very start, there is no marker. */
  lemma InjectedMidLine(t: string, b: string)
    requires Absent(t, Marker()) && BlockShape(b)
    requires Index(t, Key()).Some? && !KeyStartsLine(t)
    ensures Absent(Inject(t, b), Marker())
  {
    var j := Index(t, Key()).value;
    InjectedText(t, b, j);
    hide Index, BlockShape, Absent;
    NoMarkerMidLine(t, b, j, t[..j] + b + t[j..]);
  }

  /** After an injection at the start of a line, the first marker is the injected one. */
  lemma FirstMarker(t: string, b: string, j: nat, p: string)
    requires NoMarkerBefore(t, j) && BlockShape(b) && 0 < j <= |t| && |p| == |t| + |b|
    requires p[..j] == t[..j] && p[j..j + |b|] == b
    requires t[j - 1] == '\n'
    ensures Index(p, Marker()) == Some(j - 1)
  {
    MarkerFacts();
    hide Marker, Head, Key;
    assert p[j - 1] == p[..j][j - 1];
    SliceOfSlice(p, j, |b|, 0, 33);
    assert p[j - 1..j + 33] == [p[j - 1]] + p[j..j + 33];
    assert Occurs(p, Marker(), j - 1);
    forall i: nat | i < j - 1
      ensures !Occurs(p, Marker(), i)
    {
      if i + 34 <= j {
        MarkersInFront(t, j, p, i);
      } else {
        NoMarkerAcross(p, b, j, i);
      }
    }
    IndexIs(p, Marker(), j - 1);
  }

  /** The first key line after the start of the block is right behind it. */
  lemma KeyBehindBlock(b: string, rest: string)
    requires BlockShape(b) && Occurs(rest, Key(), 0)
    ensures Index(b + rest, KeyLine()) == Some(|b| - 1)
  {
    KeyFacts();
    hide Key, KeyLine, Head;
    var n, tail := |b|, b + rest;
    assert tail[n - 1..n + 11] == [b[n - 1]] + rest[0..11];
    assert Occurs(tail, KeyLine(), n - 1);
    forall q: nat | q < n - 1
      ensures !Occurs(tail, KeyLine(), q)
    {
      assert tail[q] == b[q] && tail[q + 1] == b[q + 1];
      if b[q] != '\n' {
        CharDiffers(tail, KeyLine(), q, 0);
      } else {
        CharDiffers(tail, KeyLine(), q, 1);
      }
    }
    IndexIs(tail, KeyLine(), n - 1);
  }

  /** Cutting the block out of the text it was put into, with the newline that ends it. */
  lemma CutBlock(t: string, b: string, j: nat, p: string)
    requires 0 < j <= |t| && p == t[..j] + b + t[j..] && |b| > 0 && b[|b| - 1] == t[j - 1]
    ensures p[j..] == b + t[j..]
    ensures p[..j - 1] + p[j - 1 + |b|..] == t
  {
    assert p[j - 1 + |b|..] == [t[j - 1]] + t[j..];
    assert p[..j - 1] == t[..j - 1];
  }

  lemma StripFound(p: string, m: nat, e: nat)
    requires Index(p, Marker()) == Some(m) && m + 1 <= |p| && Index(p[m + 1..], KeyLine()) == Some(e)
    ensures m + 1 + e <= |p| && Strip(p) == p[..m] + p[m + 1 + e..]
  {
    hide Marker, KeyLine, Index;
  }

  lemma BlockEnds(b: string)
    requires BlockShape(b)
    ensures |b| >= 33 && b[|b| - 1] == '\n'
  {
  }

  lemma KeyAtStart(t: string, j: nat)
    requires Occurs(t, Key(), j)
    ensures Occurs(t[j..], Key(), 0)
  {
    KeyFacts();
    SliceOfSlice(t, j, |t| - j, 0, 11);
    assert t[j..j + (|t| - j)] == t[j..];
  }

  /** Removing the injected block restores the text. */
  lemma StripInjected(t: string, b: string)
    requires BlockShape(b) && KeyStartsLine(t) && NoMarkerBefore(t, Index(t, Key()).value)
    ensures Strip(Inject(t, b)) == t
  {
    hide Marker, Key, KeyLine, Index, BlockShape, Strip, NoMarkerBefore;
    var j := Index(t, Key()).value;
    var p := t[..j] + b + t[j..];
    InjectedText(t, b, j);
    FirstMarker(t, b, j, p);
    assert |b| >= 33 && b[|b| - 1] == '\n' by { BlockEnds(b); }
    CutBlock(t, b, j, p);
    KeyAtStart(t, j);
    KeyBehindBlock(b, t[j..]);
    StripFound(p, j - 1, |b| - 1);
  }

  // ----- what removing a block leaves -----

  /** No key line comes after a marker. */
  ghost predicate NothingToCut(t: string) {
    forall m: nat, q: nat :: Occurs(t, Marker(), m) && m < q ==> !Occurs(t, KeyLine(), q)
  }

  /** The text from a key line on replaces what stood from the first marker on. */
  ghost predicate CutAt(t: string, m: nat, rest: string) {
    && Index(t, Marker()) == Some(m) && m + 34 <= |t| && t[m] == '\n'
    && m + |rest| < |t| && rest == t[|t| - |rest|..]
    && Strip(t) == t[..m] + rest && Occurs(rest, KeyLine(), 0)
  }

  lemma OccursAfter(t: string, p: string, from: nat, q: nat)
    requires from <= q && from <= |t|
    ensures Occurs(t, p, q) <==> Occurs(t[from..], p, q - from)
  {
    if q + |p| <= |t| {
      OccursInPart(t, from, |t| - from, p, q);
      assert t[from..from + (|t| - from)] == t[from..];
    }
  }

  lemma MarkerEdges()
    ensures |Marker()| == 34 && Marker()[0] == '\n' && Marker()[1] == ' ' && Marker()[15] == ' '
    ensures forall d :: 0 <= d < 33 && Marker()[d] == '\n' ==> d == 0 || d == 14
  {
    MarkerFacts();
    hide Marker, Head;
  }

  lemma IndexFacts(t: string, p: string)
    ensures Index(t, p).None? ==> forall i: nat :: !Occurs(t, p, i)
    ensures Index(t, p).Some? ==> Index(t, p).value + |p| <= |t|
    ensures Index(t, p).Some? ==> Occurs(t, p, Index(t, p).value) && forall i: nat :: i < Index(t, p).value ==> !Occurs(t, p, i)
  {
  }

  lemma NothingBehind(t: string, m: nat)
    requires Index(t, Marker()) == Some(m) && m < |t| && Index(t[m + 1..], KeyLine()).None?
    ensures NothingToCut(t)
  {
    IndexFacts(t, Marker());
    IndexFacts(t[m + 1..], KeyLine());
    hide Marker, KeyLine, Index, Occurs;
    forall q: nat | m < q
      ensures !Occurs(t, KeyLine(), q)
    {
      OccursAfter(t, KeyLine(), m + 1, q);
    }
  }

  lemma CutFrom(t: string, m: nat, e: nat)
    requires Index(t, Marker()) == Some(m) && m + 34 <= |t| && t[m] == '\n' && Index(t[m + 1..], KeyLine()) == Some(e)
    ensures m + 1 + e <= |t| && CutAt(t, m, t[m + 1 + e..])
  {
    var tail := t[m + 1..];
    StripFound(t, m, e);
    IndexFacts(tail, KeyLine());
    hide Marker, KeyLine, Index, Strip, Occurs;
    OccursAfter(tail, KeyLine(), e, e);
    assert tail[e..] == t[m + 1 + e..];
  }

  lemma UncutIs(t: string)
    requires Index(t, Marker()).Some? ==>
      var m := Index(t, Marker()).value; m < |t| && Index(t[m + 1..], KeyLine()).None?
    ensures Strip(t) == t
  {
    hide Marker, KeyLine, Index;
  }

  lemma MarkerAt(t: string, m: nat)
    requires Index(t, Marker()) == Some(m)
    ensures m + 34 <= |t| && t[m] == '\n'
  {
    IndexFacts(t, Marker());
    MarkerEdges();
    hide Marker, Index;
    CharAt(t, Marker(), m, 0);
  }

  lemma StripShape(t: string) returns (m: nat, rest: string)
    ensures CutAt(t, m, rest) || (Strip(t) == t && NothingToCut(t))
  {
    hide CutAt, Marker, KeyLine, Index, Strip;
    var idx := Index(t, Marker());
    m, rest := 0, [];
    if idx.None? {
      UncutIs(t);
      return;
    }
    m := idx.value;
    MarkerAt(t, m);
    var end := Index(t[m + 1..], KeyLine());
    if end.None? {
      UncutIs(t);
      NothingBehind(t, m);
    } else {
      CutFrom(t, m, end.value);
      rest := t[m + 1 + end.value..];
    }
  }

  /** No marker runs into the key line that was moved up. */
  lemma NoMarkerIntoKey(u: string, m: nat, i: nat)
    requires m + 1 < |u| && u[m] == '\n' && u[m + 1] == 'c' && i <= m < i + 33
    ensures !Occurs(u, Marker(), i)
  {
    MarkerEdges();
    hide Marker;
    if Marker()[m - i] != '\n' {
      CharDiffers(u, Marker(), i, m - i);
    } else {
      CharDiffers(u, Marker(), i, m - i + 1);
    }
  }

  /** What a cut leaves: up to the key line, the text as it was. */
  lemma CutText(t: string, m: nat, rest: string)
    requires CutAt(t, m, rest)
    ensures var u := Strip(t);
      && m + 12 <= |u| && u[..m + 1] == t[..m + 1] && u[m] == '\n' && u[m + 1] == 'c'
      && Occurs(u, KeyLine(), m) && Occurs(u, Key(), m + 1)
  {
    KeyFacts();
    hide Marker, Strip, Index, Key, KeyLine;
    var u := t[..m] + rest;
    CharAt(rest, KeyLine(), 0, 0);
    CharAt(rest, KeyLine(), 0, 1);
    assert u[m..m + 12] == rest[0..0 + 12];
    assert u[m + 1..m + 12] == u[m..m + 12][1..];
    assert u[..m + 1] == t[..m + 1];
  }

  lemma KeyAfterNewline(t: string, j: nat)
    requires 0 < j && Occurs(t, Key(), j) && t[j - 1] == '\n'
    ensures Occurs(t, KeyLine(), j - 1) && t[j] == 'c'
  {
    KeyFacts();
    hide Key, KeyLine;
    CharAt(t, Key(), j, 0);
    assert t[j - 1..j + 11] == [t[j - 1]] + t[j..j + 11];
  }

  lemma NoMarkerInCut(t: string, m: nat, rest: string, j: nat)
    requires CutAt(t, m, rest) && Index(Strip(t), Key()) == Some(j)
    ensures NoMarkerBefore(Strip(t), j)
  {
    var u := Strip(t);
    IndexFacts(u, Key());
    IndexFacts(t, Marker());
    CutText(t, m, rest);
    hide Marker, Key, KeyLine, Index, Strip;
    assert j <= m + 1;
    hide Occurs;
    forall i: nat | i < j
      ensures !Occurs(u, Marker(), i)
    {
      if i + 34 <= m + 1 {
        MarkersInFront(t, m + 1, u, i);
      } else {
        NoMarkerIntoKey(u, m, i);
      }
    }
  }

  lemma NoMarkerUncut(u: string, j: nat)
    requires NothingToCut(u) && 0 < j && Occurs(u, Key(), j) && u[j - 1] == '\n'
    ensures NoMarkerBefore(u, j)
  {
    KeyAfterNewline(u, j);
    hide Marker, Key, KeyLine;
    forall i: nat | i < j
      ensures !Occurs(u, Marker(), i)
    {
      if i == j - 1 {
        MarkerEdges();
        CharDiffers(u, Marker(), i, 1);
      }
    }
  }

  /** In a stripped text whose first key starts a line, no marker comes before that key. */
  lemma NoMarkerBeforeKey(t: string)
    requires KeyStartsLine(Strip(t))
    ensures NoMarkerBefore(Strip(t), Index(Strip(t), Key()).value)
  {
    var j := Index(Strip(t), Key()).value;
    var m, rest := StripShape(t);
    IndexFacts(Strip(t), Key());
    hide CutAt, Marker, Key, Index, Strip, NothingToCut;
    if CutAt(t, m, rest) {
      NoMarkerInCut(t, m, rest, j);
    } else {
      NoMarkerUncut(t, j);
    }
  }

  lemma KeyChars()
    ensures |Key()| == 11 && Key()[0] == 'c' && Key()[10] == '\n'
    ensures forall d :: 0 <= d < 10 ==> Key()[d] != '\n' && Key()[d] != ' '
  {
  }

  lemma KeysUpTo(p: string, v: string, m: nat, i: nat)
    requires m + 1 <= |p| && m + 1 <= |v| && v[..m + 1] == p[..m + 1] && v[m] == '\n' && i <= m
    ensures Occurs(v, Key(), i) <==> i + 11 <= m + 1 && Occurs(p, Key(), i)
  {
    KeyChars();
    hide Key;
    if i + 11 <= m + 1 {
      OccursInPart(p, 0, m + 1, Key(), i);
      OccursInPart(v, 0, m + 1, Key(), i);
      assert p[0..0 + (m + 1)] == p[..m + 1] && v[0..0 + (m + 1)] == v[..m + 1];
    } else {
      CharDiffers(v, Key(), i, m - i);
    }
  }

  /** The first key of what a cut leaves: that of the text, or the key line moved up. */
  lemma FirstKeyInCut(p: string, m: nat, rest: string, k: nat)
    requires CutAt(p, m, rest) && Index(p, Key()) == Some(k)
    ensures Index(Strip(p), Key()) == Some(if k + 11 <= m + 1 then k else m + 1)
  {
    var v := Strip(p);
    CutText(p, m, rest);
    IndexFacts(p, Key());
    KeyFacts();
    hide Marker, Key, KeyLine, Index, Strip, Occurs, CutAt;
    forall i: nat | i <= m
      ensures Occurs(v, Key(), i) <==> i + 11 <= m + 1 && Occurs(p, Key(), i)
    {
      KeysUpTo(p, v, m, i);
    }
    IndexIs(v, Key(), if k + 11 <= m + 1 then k else m + 1);
  }

  lemma StartsLineAt(t: string, j: nat)
    requires Index(t, Key()) == Some(j)
    ensures KeyStartsLine(t) <==> 0 < j <= |t| && t[j - 1] == '\n'
  {
    IndexFacts(t, Key());
    hide Key, Index;
  }

  lemma SameAt(a: string, b: string, n: nat, i: nat)
    requires i < n <= |a| && n <= |b| && a[..n] == b[..n]
    ensures a[i] == b[i]
  {
    assert a[..n][i] == a[i] && b[..n][i] == b[i];
  }

  /** Removing a block leaves the first key at the start of a line. */
  lemma StripKeepsLineStart(p: string)
    requires KeyStartsLine(p)
    ensures KeyStartsLine(Strip(p))
  {
    var v, k := Strip(p), Index(p, Key()).value;
    var m, rest := StripShape(p);
    hide *;
    if CutAt(p, m, rest) {
      StartsLineAt(p, k);
      CutText(p, m, rest);
      FirstKeyInCut(p, m, rest, k);
      if k + 11 <= m + 1 {
        SameAt(p, v, m + 1, k - 1);
        StartsLineAt(v, k);
      } else {
        StartsLineAt(v, m + 1);
      }
    }
  }

  /** The key line that a cut moves up is one of the text. */
  lemma StripHasKeyLine(t: string, m: nat, rest: string)
    requires CutAt(t, m, rest)
    ensures exists q: nat :: Occurs(t, Key(), q)
  {
    var q := |t| - |rest|;
    KeyFacts();
    hide Marker, Key, KeyLine, Index, Strip;
    OccursAfter(t, KeyLine(), q, q);
    assert t[q + 1..q + 12] == t[q..q + 12][1..];
    assert Occurs(t, Key(), q + 1);
  }

  lemma StripWithoutKey(u: string)
    requires Index(u, Key()).None?
    ensures Strip(u) == u
  {
    var m, rest := StripShape(u);
    if CutAt(u, m, rest) {
      StripHasKeyLine(u, m, rest);
    }
  }

  lemma InjectLength(t: string, b: string)
    ensures |Inject(t, b)| == |t| + if Index(t, Key()).Some? then |b| else 0
  {
  }

  /** The condition under which patching can be repeated: nothing is ever injected, or the block
      is injected at the start of a line. */
  predicate Repeatable(t: string) {
    Index(t, Key()).None? || KeyStartsLine(t)
  }

  /** What a patch injected is removed again, without a trace, when the first key of the stripped
      text starts a line, or it has none. */
  lemma StripPatchBack(t: string, paths: seq<string>)
    requires NewlineFreePaths(paths) && Repeatable(Strip(t))
    ensures Strip(Patch(t, paths)) == Strip(t)
  {
    var u, b := Strip(t), Block(paths);
    BlockHasShape(paths);
    hide Marker, Key, Strip, BlockShape, Block;
    if KeyStartsLine(u) {
      NoMarkerBeforeKey(t);
      StripInjected(u, b);
    } else {
      StripWithoutKey(u);
    }
  }

  // ----- which block holds a key -----

  predicate EndsInKey(path: string) {
    |path| >= 10 && path[|path| - 10..] == Key()[..10]
  }

  /** Some path ends in the key, so that its line in the block does. */
  ghost predicate HoldsKey(paths: seq<string>) {
    exists i :: 0 <= i < |paths| && EndsInKey(paths[i])
  }

  lemma ItemChars()
    ensures |Item()| == 8 && Item()[0] == ' ' && Item()[7] == ' ' && forall d :: 0 <= d < 8 ==> Item()[d] != 'c'
  {
  }

  lemma HeadBeforeNewlines()
    ensures |Head()| == 33 && Head()[3] != 'c' && Head()[22] != 'c'
  {
  }

  lemma HeadHoldsNoKey()
    ensures Absent(Head(), Key())
  {
    KeyChars();
    HeadFacts();
    HeadBeforeNewlines();
    hide Head, Key;
    forall i: nat
      ensures !Occurs(Head(), Key(), i)
    {
      if i + 11 <= 33 {
        if Head()[i + 10] != '\n' {
          CharDiffers(Head(), Key(), i, 10);
        } else {
          CharDiffers(Head(), Key(), i, 0);
        }
      }
    }
  }

  /** No key starts in a text that ends a line and reaches past it. */
  lemma KeyNotAcross(a: string, b: string, i: nat)
    requires i < |a| < i + 11 && a[|a| - 1] == '\n'
    ensures !Occurs(a + b, Key(), i)
  {
    KeyChars();
    hide Key;
    if Occurs(a + b, Key(), i) {
      CharAt(a + b, Key(), i, |a| - 1 - i);
    }
  }

  /** Behind the end of a line, the keys are those of the two parts. */
  lemma KeyInParts(a: string, b: string, i: nat)
    requires a == [] || a[|a| - 1] == '\n'
    ensures Occurs(a + b, Key(), i) <==> if i < |a| then Occurs(a, Key(), i) else Occurs(b, Key(), i - |a|)
  {
    KeyFacts();
    hide Key;
    var t := a + b;
    if i < |a| && i + 11 <= |a| {
      OccursInPart(t, 0, |a|, Key(), i);
      assert t[0..0 + |a|] == a;
    } else if i < |a| {
      KeyNotAcross(a, b, i);
    } else if i + 11 <= |t| {
      OccursInPart(t, |a|, |b|, Key(), i);
      assert t[|a|..|a| + |b|] == b;
    }
  }

  lemma ShortPath(path: string)
    requires |path| < 10
    ensures !EndsInKey(path)
  {
  }

  lemma KeyEndsItem(path: string)
    requires |path| >= 2
    ensures Occurs(Item() + path + "\n", Key(), |path| - 2) <==> EndsInKey(path)
  {
    var line, k := Item() + path + "\n", |path| - 2;
    KeyChars();
    ItemChars();
    hide Item, Key;
    if |path| >= 10 {
      assert line[k..k + 11] == path[|path| - 10..] + "\n";
      assert Key() == Key()[..10] + "\n";
      assert line[k..k + 11][..10] == path[|path| - 10..];
    } else {
      assert line[7] == Item()[7];
      CharDiffers(line, Key(), k, 7 - k);
    }
  }

  /** The line of a path holds the key exactly when the path ends in it. */
  lemma ItemHoldsKey(path: string)
    requires forall k :: 0 <= k < |path| ==> path[k] != '\n'
    ensures Absent(Item() + path + "\n", Key()) <==> !EndsInKey(path)
  {
    var line, n := Item() + path + "\n", |Item() + path + "\n"|;
    ItemChars();
    KeyChars();
    hide Item, Key, EndsInKey;
    forall i: nat | i + 11 != n
      ensures !Occurs(line, Key(), i)
    {
      if i + 11 < n {
        CharDiffers(line, Key(), i, 10);
      }
    }
    if n >= 11 {
      KeyEndsItem(path);
    } else {
      ShortPath(path);
    }
  }

  lemma KeyInEither(a: string, b: string)
    requires a != [] && a[|a| - 1] == '\n'
    ensures Absent(a + b, Key()) <==> Absent(a, Key()) && Absent(b, Key())
  {
    hide Key;
    forall i: nat
      ensures Occurs(a + b, Key(), i) <==> if i < |a| then Occurs(a, Key(), i) else Occurs(b, Key(), i - |a|)
    {
      KeyInParts(a, b, i);
    }
    if Absent(a + b, Key()) {
      forall i: nat
        ensures !Occurs(a, Key(), i) && !Occurs(b, Key(), i)
      {
        assert !Occurs(a + b, Key(), i) && !Occurs(a + b, Key(), i + |a|);
      }
    }
  }

  /** The block holds the key exactly when some path ends in it. */
  lemma {:induction false} BlockHoldsKeyIff(paths: seq<string>)
    requires NewlineFreePaths(paths)
    ensures Absent(Block(paths), Key()) <==> !HoldsKey(paths)
  {
    if paths == [] {
      HeadHoldsNoKey();
    } else {
      var init, path := paths[..|paths| - 1], paths[|paths| - 1];
      BlockHoldsKeyIff(init);
      BlockHasShape(init);
      BlockEnds(Block(init));
      ItemHoldsKey(path);
      Assoc3(Block(init), Item(), path, "\n");
      assert HoldsKey(paths) <==> HoldsKey(init) || EndsInKey(path);
      hide Item, Key, EndsInKey, HoldsKey, BlockShape, Head;
      KeyInEither(Block(init), Item() + path + "\n");
    }
  }

  // ----- any number of patches -----

  lemma OccursBehind(a: string, b: string, i: nat)
    requires i >= |a|
    ensures Occurs(a + b, Key(), i) <==> Occurs(b, Key(), i - |a|)
  {
    KeyFacts();
    hide Key;
    var t := a + b;
    if i + 11 <= |t| {
      OccursInPart(t, |a|, |b|, Key(), i);
      assert t[|a|..|a| + |b|] == b;
    }
  }

  /** A key before the block would be one of the text; none reaches into the block. */
  lemma NoKeyBefore(t: string, b: string, j: nat, p: string, i: nat)
    requires Index(t, Key()) == Some(j) && BlockShape(b) && p == t[..j] + b + t[j..] && i < j
    ensures !Occurs(p, Key(), i)
  {
    KeyChars();
    MarkerFacts();
    hide Key, Marker, Head;
    if i + 11 <= j {
      OccursInPart(p, 0, j, Key(), i);
      OccursInPart(t, 0, j, Key(), i);
      assert p[0..0 + j] == t[0..0 + j];
    } else {
      assert p[j] == b[0] == b[..33][0];
      CharDiffers(p, Key(), i, j - i);
    }
  }

  /** The keys from the first up to the one behind the block: those of the block. */
  lemma KeyWhere(t: string, b: string, j: nat, p: string, i: nat)
    requires Index(t, Key()) == Some(j) && BlockShape(b) && p == t[..j] + b + t[j..] && i < j + |b|
    ensures Occurs(p, Key(), i) <==> j <= i && Occurs(b, Key(), i - j)
  {
    hide Key, Index;
    if i < j {
      NoKeyBefore(t, b, j, p, i);
    } else {
      assert p == t[..j] + (b + t[j..]);
      BlockEnds(b);
      hide BlockShape;
      OccursBehind(t[..j], b + t[j..], i);
      KeyInParts(b, t[j..], i - j);
    }
  }

  lemma FirstOfBlock(p: string, b: string, j: nat)
    requires forall i: nat :: i < j + |b| ==> (Occurs(p, Key(), i) <==> j <= i && Occurs(b, Key(), i - j))
    requires Occurs(p, Key(), j + |b|)
    ensures Index(p, Key()) == Some(j + if Index(b, Key()).Some? then Index(b, Key()).value else |b|)
  {
    KeyFacts();
    IndexFacts(b, Key());
    hide Key, Index, Occurs;
    IndexIs(p, Key(), j + if Index(b, Key()).Some? then Index(b, Key()).value else |b|);
  }

  /** Where the first key is once a block stands before the key of a text. */
  lemma FirstKeyAfter(t: string, b: string, j: nat)
    requires Index(t, Key()) == Some(j) && BlockShape(b)
    ensures Index(t[..j] + b + t[j..], Key()) == Some(j + if Index(b, Key()).Some? then Index(b, Key()).value else |b|)
  {
    var p := t[..j] + b + t[j..];
    InjectedText(t, b, j);
    hide Key, BlockShape, Index, Occurs;
    forall i: nat | i < j + |b|
      ensures Occurs(p, Key(), i) <==> j <= i && Occurs(b, Key(), i - j)
    {
      KeyWhere(t, b, j, p, i);
    }
    FirstOfBlock(p, b, j);
  }

  /** A key in a block never starts a line. */
  lemma BlockKeyMidLine(b: string, q: nat)
    requires BlockShape(b) && Occurs(b, Key(), q)
    ensures 0 < q && b[q - 1] != '\n'
  {
    KeyFacts();
    MarkerFacts();
    hide Key, Marker, Head;
    CharAt(b, Key(), q, 0);
    assert b[0] == b[..33][0];
  }

  lemma NextKeyAt(t: string, b: string, j: nat, q: nat)
    requires Index(t, Key()) == Some(j) && j <= |t| && 0 < q <= |b|
    requires Index(t[..j] + b + t[j..], Key()) == Some(j + q)
    ensures Repeatable(Inject(t, b)) <==> b[q - 1] == '\n'
    ensures Index(Inject(t, b), Key()).Some?
  {
    hide Key, Index;
    assert (t[..j] + b + t[j..])[j + q - 1] == b[q - 1];
  }

  lemma NextKey(t: string, b: string, j: nat)
    requires Index(t, Key()) == Some(j) && BlockShape(b)
    ensures Index(Inject(t, b), Key()).Some?
    ensures Repeatable(Inject(t, b)) <==> Absent(b, Key())
  {
    hide *;
    IndexFacts(t, Key());
    FirstKeyAfter(t, b, j);
    BlockEnds(b);
    if Index(b, Key()).Some? {
      IndexFacts(b, Key());
      BlockKeyMidLine(b, Index(b, Key()).value);
      NextKeyAt(t, b, j, Index(b, Key()).value);
    } else {
      NextKeyAt(t, b, j, |b|);
    }
  }

  /** Injecting before a key that starts no line: the text can be patched again and again with
      one block from then on exactly when the block itself holds no key. */
  lemma NextRepeatableIff(t: string, paths: seq<string>)
    requires NewlineFreePaths(paths) && !Repeatable(t)
    ensures Repeatable(Inject(t, Block(paths))) <==> !HoldsKey(paths)
    ensures Index(Inject(t, Block(paths)), Key()).Some?
  {
    var j, b := Index(t, Key()).value, Block(paths);
    BlockHasShape(paths);
    BlockHoldsKeyIff(paths);
    hide Key, Index, BlockShape, HoldsKey, Absent, Block, Repeatable;
    NextKey(t, b, j);
  }

  // ----- the paths of the program -----

  const TLS_DIR := "/var/hyperledger/fabricx/msp/tlscacerts"

  function Digits(n: nat): string {
    if n < 10 then ["0123456789"[n]] else Digits(n / 10) + ["0123456789"[n % 10]]
  }

  /** The path of the i-th certificate of a party, by its name in lower case. */
  function CertPath(party: string, i: nat): string {
    TLS_DIR + "/" + "party-" + party + "-" + Digits(i) + ".pem"
  }

  function PartyPaths(party: string, certs: nat): seq<string> {
    if certs == 0 then [] else PartyPaths(party, certs - 1) + [CertPath(party, certs - 1)]
  }

  /** A party and how many certificates it has. */
  datatype Root = Root(party: string, certs: nat)

  function AllPaths(roots: seq<Root>): seq<string> {
    if roots == [] then []
    else AllPaths(roots[..|roots| - 1]) + PartyPaths(roots[|roots| - 1].party, roots[|roots| - 1].certs)
  }

  lemma AllPathsNext(roots: seq<Root>, k: nat)
    requires k < |roots|
    ensures AllPaths(roots[..k + 1]) == AllPaths(roots[..k]) + PartyPaths(roots[k].party, roots[k].certs)
  {
    assert roots[..k + 1][..k] == roots[..k];
  }

  /** The loops that list the certificates. Map iteration visits the parties in any order. */
  method ListPaths(roots: seq<Root>) returns (paths: seq<string>)
    ensures paths == AllPaths(roots)
  {
    paths := [];
    for k := 0 to |roots|
      invariant paths == AllPaths(roots[..k])
    {
      var root := roots[k];
      ghost var before := paths;
      assert before + [] == before;
      hide CertPath, AllPaths;
      for i := 0 to root.certs
        invariant paths == before + PartyPaths(root.party, i)
      {
        Assoc(before, PartyPaths(root.party, i), [CertPath(root.party, i)]);
        paths := paths + [CertPath(root.party, i)];
      }
      AllPathsNext(roots, k);
    }
    assert roots[..|roots|] == roots;
  }

  /** What the program's paths have in common. */
  predicate IsCertPath(path: string) {
    |path| >= 4 && path[|path| - 4..] == ".pem" && '\n' !in path
  }

  ghost predicate CertPaths(paths: seq<string>) {
    forall i :: 0 <= i < |paths| ==> IsCertPath(paths[i])
  }

  lemma DigitsFree(n: nat)
    ensures '\n' !in Digits(n)
  {
    assert forall d :: 0 <= d < 10 ==> "0123456789"[d] != '\n';
  }

  lemma EndsInPem(front: string)
    ensures (front + ".pem")[|front + ".pem"| - 4..] == ".pem"
    ensures '\n' !in front ==> '\n' !in front + ".pem"
  {
  }

  lemma CertPathIs(party: string, i: nat)
    requires '\n' !in party
    ensures IsCertPath(CertPath(party, i))
  {
    DigitsFree(i);
    hide Digits;
    EndsInPem(TLS_DIR + "/" + "party-" + party + "-" + Digits(i));
  }

  lemma {:induction false} PartyPathsAre(party: string, certs: nat)
    requires '\n' !in party
    ensures CertPaths(PartyPaths(party, certs))
  {
    if certs > 0 {
      PartyPathsAre(party, certs - 1);
      CertPathIs(party, certs - 1);
      hide CertPath, IsCertPath;
    }
  }

  lemma {:induction false} PartyPathAt(party: string, certs: nat, i: nat)
    requires i < certs
    ensures |PartyPaths(party, certs)| == certs && PartyPaths(party, certs)[i] == CertPath(party, i)
  {
    hide CertPath;
    if certs > 1 && i < certs - 1 {
      PartyPathAt(party, certs - 1, i);
    } else if certs > 1 {
      PartyPathAt(party, certs - 1, 0);
    }
  }

  /** The number that a text of digits stands for. */
  function Number(s: string): int {
    if s == [] then 0 else 10 * Number(s[..|s| - 1]) + (s[|s| - 1] as int - '0' as int)
  }

  lemma DigitAt(d: nat)
    requires d < 10
    ensures "0123456789"[d] as int == '0' as int + d
  {
  }

  lemma {:induction false} DigitsMean(n: nat)
    ensures Digits(n) != "" && Number(Digits(n)) == n
    ensures forall k :: 0 <= k < |Digits(n)| ==> '0' <= Digits(n)[k] <= '9'
    ensures Digits(n)[0] == '0' ==> n == 0
  {
    DigitAt(n % 10);
    if n >= 10 {
      DigitsMean(n / 10);
      var front, c := Digits(n / 10), "0123456789"[n % 10];
      assert Digits(n) == front + [c];
      assert (front + [c])[..|front|] == front;
    } else {
      assert Digits(n)[..0] == "";
    }
  }

  lemma CertPathSpelled(party: string, i: nat)
    ensures CertPath(party, i) == "/var/hyperledger/fabricx/msp/tlscacerts/party-" + party + "-" + Digits(i) + ".pem"
  {
    hide Digits;
    assert TLS_DIR + "/" + "party-" == "/var/hyperledger/fabricx/msp/tlscacerts/party-";
  }

  /** How the paths are spelled, and in which order they are listed: party by party, and for each its
      certificates by number, in decimal. */
  lemma AllPathsSpelled(roots: seq<Root>, k: nat, i: nat)
    requires k < |roots| && i < roots[k].certs
    ensures var before := |AllPaths(roots[..k])|;
      && before + i < |AllPaths(roots[..k + 1])|
      && AllPaths(roots[..k]) <= AllPaths(roots[..k + 1])
      && |AllPaths(roots[..k + 1])| == before + roots[k].certs && AllPaths(roots[..0]) == []
      && AllPaths(roots[..k + 1])[before + i]
        == "/var/hyperledger/fabricx/msp/tlscacerts/party-" + roots[k].party + "-" + Digits(i) + ".pem"
  {
    AllPathsNext(roots, k);
    PartyPathAt(roots[k].party, roots[k].certs, i);
    CertPathSpelled(roots[k].party, i);
    hide CertPath, PartyPaths;
  }

  /** All of the program's paths are such paths. */
  lemma {:induction false} AllPathsAre(roots: seq<Root>)
    requires forall k :: 0 <= k < |roots| ==> '\n' !in roots[k].party
    ensures CertPaths(AllPaths(roots))
  {
    if roots != [] {
      AllPathsAre(roots[..|roots| - 1]);
      PartyPathsAre(roots[|roots| - 1].party, roots[|roots| - 1].certs);
      hide IsCertPath, PartyPaths;
    }
  }

  lemma KeyColon()
    ensures Key()[..10][9] == ':'
  {
  }

  lemma CertPathEnd(path: string)
    requires IsCertPath(path)
    ensures !EndsInKey(path)
  {
    if |path| >= 10 {
      assert path[|path| - 4..][3] == path[|path| - 1];
      assert path[|path| - 10..][9] == path[|path| - 1];
      KeyColon();
    }
  }

  /** No block of the program holds the key. */
  lemma CertPathsHoldNoKey(paths: seq<string>)
    requires CertPaths(paths)
    ensures NewlineFreePaths(paths) && !HoldsKey(paths)
  {
    forall i | 0 <= i < |paths|
      ensures !EndsInKey(paths[i])
    {
      CertPathEnd(paths[i]);
    }
  }

  // ----- patching again -----

  lemma InjectIs(t: string, b: string, j: nat)
    requires Index(t, Key()) == Some(j)
    ensures j <= |t| && Inject(t, b) == t[..j] + b + t[j..]
  {
    IndexFacts(t, Key());
    hide Key, Index;
  }

  lemma StartsLine(t: string)
    requires Repeatable(t) && Index(t, Key()).Some?
    ensures KeyStartsLine(t)
  {
    hide Key, Index;
  }

  lemma InjectHasKey(t: string, b: string, j: nat)
    requires Index(t, Key()) == Some(j) && BlockShape(b) && Absent(b, Key())
    ensures KeyStartsLine(Inject(t, b)) && Index(Inject(t, b), Key()) == Some(j + |b|)
  {
    hide *;
    InjectIs(t, b, j);
    FirstKeyAfter(t, b, j);
    NextKey(t, b, j);
    StartsLine(Inject(t, b));
  }

  lemma SameAround(u: string, v: string, b: string, j: nat)
    requires j <= |u| && j <= |v| && u[..j] + b + u[j..] == v[..j] + b + v[j..]
    ensures u == v
  {
    var p, q := u[..j] + b + u[j..], v[..j] + b + v[j..];
    assert u[..j] == p[..j] && v[..j] == q[..j];
    assert u[j..] == p[j + |b|..] && v[j..] == q[j + |b|..];
    assert u == u[..j] + u[j..] && v == v[..j] + v[j..];
  }

  /** The text before an injection can be told from the text after it. */
  lemma InjectInjective(u: string, v: string, b: string)
    requires Index(u, Key()).Some? && Index(v, Key()).Some? && BlockShape(b) && Absent(b, Key())
    requires Inject(u, b) == Inject(v, b)
    ensures u == v
  {
    var j := Index(u, Key()).value;
    InjectHasKey(u, b, j);
    InjectHasKey(v, b, Index(v, Key()).value);
    IndexFacts(u, Key());
    IndexFacts(v, Key());
    assert Index(v, Key()) == Some(j);
    hide Key, BlockShape, Index, Absent;
    SameAround(u, v, b, j);
  }

  /** Whatever the text: once a block of the program stands before its first key, removing a block
      leaves that key at the start of a line. */
  lemma OnePatchSettles(t: string, paths: seq<string>)
    requires CertPaths(paths)
    ensures Repeatable(Strip(Patch(t, paths)))
    ensures !Repeatable(Strip(t)) ==> KeyStartsLine(Strip(Patch(t, paths)))
  {
    var u := Strip(t);
    CertPathsHoldNoKey(paths);
    BlockHasShape(paths);
    BlockHoldsKeyIff(paths);
    hide Key, BlockShape, Index, Absent, Strip, Block, CertPaths, HoldsKey;
    if Repeatable(u) {
      StripPatchBack(t, paths);
    } else {
      InjectHasKey(u, Block(paths), Index(u, Key()).value);
      StripKeepsLineStart(Inject(u, Block(paths)));
    }
  }

  /** For every text: removing what a patch injected restores the stripped text exactly when its
      first key starts a line after the first, or it has none. */
  lemma StripPatchIff(t: string, paths: seq<string>)
    requires CertPaths(paths)
    ensures Strip(Patch(t, paths)) == Strip(t) <==> Repeatable(Strip(t))
  {
    CertPathsHoldNoKey(paths);
    hide Strip, Patch, Index;
    if Repeatable(Strip(t)) {
      StripPatchBack(t, paths);
    } else {
      OnePatchSettles(t, paths);
    }
  }

  /** For every text: patching again gives what patching once with the last list gives exactly
      under that condition. */
  lemma RepatchIff(t: string, first: seq<string>, second: seq<string>)
    requires CertPaths(first) && CertPaths(second)
    ensures Patch(Patch(t, first), second) == Patch(t, second) <==> Repeatable(Strip(t))
  {
    StripPatchIff(t, first);
    OnePatchSettles(t, first);
    CertPathsHoldNoKey(second);
    BlockHasShape(second);
    BlockHoldsKeyIff(second);
    var u, v, b := Strip(t), Strip(Patch(t, first)), Block(second);
    hide Key, BlockShape, Index, Absent, Strip, Block, CertPaths, HoldsKey, Inject;
    if !Repeatable(u) && Inject(v, b) == Inject(u, b) {
      InjectInjective(u, v, b);
    }
  }

  function PatchAll(t: string, lists: seq<seq<string>>): string {
    if lists == [] then t else Patch(PatchAll(t, lists[..|lists| - 1]), lists[|lists| - 1])
  }

  /** What lies below the block of the last of any number of patches: a block that is injected
      before a key that starts no line stays for good. */
  function Below(u: string, lists: seq<seq<string>>): string {
    if lists == [] then u
    else
      var v := Below(u, lists[..|lists| - 1]);
      if Repeatable(v) then v else Inject(v, Block(lists[|lists| - 1]))
  }

  ghost predicate NewlineFreeLists(lists: seq<seq<string>>) {
    forall i :: 0 <= i < |lists| ==> NewlineFreePaths(lists[i])
  }

  /** Some list puts a block without a key. */
  ghost predicate SomeKeyless(lists: seq<seq<string>>) {
    exists i :: 0 <= i < |lists| && !HoldsKey(lists[i])
  }

  lemma SomeKeylessSnoc(lists: seq<seq<string>>)
    requires lists != []
    ensures SomeKeyless(lists) <==> SomeKeyless(lists[..|lists| - 1]) || !HoldsKey(lists[|lists| - 1])
  {
    hide HoldsKey;
  }

  lemma KeptInject(v: string, paths: seq<string>)
    requires Absent(v, Marker()) && NewlineFreePaths(paths) && !Repeatable(v)
    ensures Absent(Inject(v, Block(paths)), Marker())
    ensures Strip(Inject(v, Block(paths))) == Inject(v, Block(paths))
  {
    BlockHasShape(paths);
    hide Block, BlockShape, Marker;
    InjectedMidLine(v, Block(paths));
  }

  /** After any number of patches, with lists of any newline-free paths: what removing a block
      leaves, and whether the next patch will find its block again. */
  lemma {:induction false} BelowLastBlock(t: string, lists: seq<seq<string>>)
    requires Absent(Strip(t), Marker()) && NewlineFreeLists(lists)
    ensures Strip(PatchAll(t, lists)) == Below(Strip(t), lists) && Absent(Below(Strip(t), lists), Marker())
    ensures lists != [] ==> PatchAll(t, lists) == Inject(Below(Strip(t), lists[..|lists| - 1]), Block(lists[|lists| - 1]))
    ensures Repeatable(Below(Strip(t), lists)) <==> Repeatable(Strip(t)) || SomeKeyless(lists)
  {
    if lists != [] {
      var init, last := lists[..|lists| - 1], lists[|lists| - 1];
      BelowLastBlock(t, init);
      SomeKeylessSnoc(lists);
      var q, v := PatchAll(t, init), Below(Strip(t), init);
      hide SomeKeyless, HoldsKey, Block, Key, Marker, Strip, Inject, Repeatable;
      if Repeatable(v) {
        StripPatchBack(q, last);
      } else {
        NextRepeatableIff(v, last);
        KeptInject(v, last);
      }
    }
  }

  /** With paths of any kind, a second patch adds a second block when the first key starts no
      line. */
  lemma TwoBlocks(t: string, first: seq<string>, second: seq<string>)
    requires Absent(Strip(t), Marker()) && NewlineFreePaths(first) && NewlineFreePaths(second) && !Repeatable(Strip(t))
    ensures |Patch(Patch(t, first), second)| == |Strip(t)| + |Block(first)| + |Block(second)|
    ensures |Patch(t, second)| == |Strip(t)| + |Block(second)|
  {
    var u := Strip(t);
    BlockHasShape(first);
    InjectedMidLine(u, Block(first));
    InjectedText(u, Block(first), Index(u, Key()).value);
    InjectLength(u, Block(first));
    InjectLength(Patch(t, first), Block(second));
    InjectLength(u, Block(second));
  }

  lemma BlockHasHead(paths: seq<string>)
    ensures |Block(paths)| >= 33
  {
    MarkerFacts();
    hide Head;
  }

  /** For lists of any newline-free paths, and not only of those the program makes: after any
      number of patches, the next one replaces the block of the one before it exactly when the
      first key started a line at the outset, or some patch put a block that holds no key. */
  lemma GrowthStopsIff(t: string, lists: seq<seq<string>>, next: seq<string>, last: seq<string>)
    requires Absent(Strip(t), Marker()) && NewlineFreeLists(lists) && NewlineFreePaths(next) && NewlineFreePaths(last)
    ensures var p := PatchAll(t, lists);
      Patch(Patch(p, next), last) == Patch(p, last) <==> Repeatable(Strip(t)) || SomeKeyless(lists)
  {
    BelowLastBlock(t, lists);
    var p := PatchAll(t, lists);
    if Repeatable(Strip(p)) {
      StripPatchBack(p, next);
    } else {
      TwoBlocks(p, next, last);
      BlockHasHead(next);
    }
    hide Repeatable, SomeKeyless, Strip, Inject, Block;
  }

  /** However often the program runs, only its last run shows when the first key starts a line
      after the first, or there is none. */
  lemma {:induction false} OnlyLastPatchShows(t: string, lists: seq<seq<string>>)
    requires Repeatable(Strip(t)) && lists != [] && NewlineFreeLists(lists)
    ensures PatchAll(t, lists) == Patch(t, lists[|lists| - 1])
    ensures Strip(PatchAll(t, lists)) == Strip(t)
  {
    var n := |lists|;
    hide Repeatable, Strip, Block, Inject;
    if n > 1 {
      OnlyLastPatchShows(t, lists[..n - 1]);
    } else {
      assert PatchAll(t, lists[..0]) == t;
    }
    StripPatchBack(t, lists[n - 1]);
  }

  ghost predicate CertLists(lists: seq<seq<string>>) {
    forall i :: 0 <= i < |lists| ==> CertPaths(lists[i])
  }

  lemma CertListsFree(lists: seq<seq<string>>)
    requires CertLists(lists)
    ensures NewlineFreeLists(lists)
  {
    forall i | 0 <= i < |lists|
      ensures NewlineFreePaths(lists[i])
    {
      CertPathsHoldNoKey(lists[i]);
    }
  }

  lemma {:induction false} PatchAllFrom(t: string, lists: seq<seq<string>>)
    requires lists != []
    ensures PatchAll(t, lists) == PatchAll(Patch(t, lists[0]), lists[1..])
  {
    hide Patch;
    var n := |lists|;
    if n == 1 {
      assert lists[..0] == [] && lists[1..] == [];
    } else {
      PatchAllFrom(t, lists[..n - 1]);
      assert lists[1..][..n - 2] == lists[..n - 1][1..];
    }
  }

  /** For every text and any number of runs of the program: the last run shows alone when the first
      key starts a line after the first, or there is none; otherwise the first and the last run
      show. */
  lemma FirstAndLastShow(t: string, lists: seq<seq<string>>)
    requires |lists| >= 2 && CertLists(lists)
    ensures var last := lists[|lists| - 1];
      PatchAll(t, lists) == if Repeatable(Strip(t)) then Patch(t, last) else Patch(Patch(t, lists[0]), last)
  {
    CertListsFree(lists);
    hide Patch, Strip, Repeatable, CertPaths, NewlineFreePaths;
    if Repeatable(Strip(t)) {
      OnlyLastPatchShows(t, lists);
    } else {
      OnePatchSettles(t, lists[0]);
      PatchAllFrom(t, lists);
      OnlyLastPatchShows(Patch(t, lists[0]), lists[1..]);
    }
  }

  /** For every text: after a first run of the program, what any further run adds is replaced by
      the run that follows it. */
  lemma GrowthStops(t: string, lists: seq<seq<string>>, next: seq<string>, last: seq<string>)
    requires lists != [] && CertLists(lists) && CertPaths(next) && CertPaths(last)
    ensures var p := PatchAll(t, lists); Patch(Patch(p, next), last) == Patch(p, last)
  {
    var n := |lists|;
    OnePatchSettles(PatchAll(t, lists[..n - 1]), lists[n - 1]);
    hide Patch, Strip, Repeatable, CertPaths;
    RepatchIff(PatchAll(t, lists), next, last);
  }

  lemma {:induction false} BelowSettles(u: string, lists: seq<seq<string>>)
    requires lists != [] && NewlineFreePaths(lists[0]) && !Repeatable(u) && !HoldsKey(lists[0])
    ensures Below(u, lists) == Inject(u, Block(lists[0]))
  {
    NextRepeatableIff(u, lists[0]);
    hide Repeatable, HoldsKey, Inject, Block;
    if |lists| == 1 {
      assert lists[..0] == [];
    } else {
      BelowSettles(u, lists[..|lists| - 1]);
    }
  }

  lemma HasKey(u: string)
    requires !Repeatable(u)
    ensures Index(u, Key()).Some? && Index(u, Key()).value <= |u|
  {
  }

  lemma InjectBehind(u: string, a: string, b: string, j: nat)
    requires j <= |u| && Index(u, Key()) == Some(j) && Index(u[..j] + a + u[j..], Key()) == Some(j + |a|)
    ensures Inject(Inject(u, a), b) == u[..j] + a + b + u[j..]
  {
    hide Key, Index;
    var p := u[..j] + a + u[j..];
    assert p[..j + |a|] == u[..j] + a && p[j + |a|..] == u[j..];
  }

  /** Of two blocks put before a key that starts no line, the second lies behind the first. */
  lemma InjectTwice(u: string, first: seq<string>, b: string)
    requires !Repeatable(u) && NewlineFreePaths(first) && !HoldsKey(first)
    ensures var j := Index(u, Key());
      j.Some? && Inject(Inject(u, Block(first)), b) == u[..j.value] + Block(first) + b + u[j.value..]
  {
    hide *;
    HasKey(u);
    var j, a := Index(u, Key()).value, Block(first);
    BlockHasShape(first);
    BlockHoldsKeyIff(first);
    FirstKeyAfter(u, a, j);
    InjectBehind(u, a, b, j);
  }

  /** On a text without foreign markers whose first key starts no line, the first block stays for
      good, and of all later ones only the last shows, right behind it. */
  lemma FirstBlockStays(t: string, lists: seq<seq<string>>)
    requires Absent(Strip(t), Marker()) && CertLists(lists) && |lists| >= 2 && !Repeatable(Strip(t))
    ensures var u, j := Strip(t), Index(Strip(t), Key());
      && j.Some?
      && PatchAll(t, lists) == u[..j.value] + Block(lists[0]) + Block(lists[|lists| - 1]) + u[j.value..]
  {
    var u, init, last := Strip(t), lists[..|lists| - 1], lists[|lists| - 1];
    CertListsFree(lists);
    CertPathsHoldNoKey(lists[0]);
    hide *;
    assert init[0] == lists[0];
    BelowLastBlock(t, lists);
    BelowSettles(u, init);
    InjectTwice(u, lists[0], Block(last));
  }

  function BlockLengths(lists: seq<seq<string>>): nat {
    if lists == [] then 0 else BlockLengths(lists[..|lists| - 1]) + |Block(lists[|lists| - 1])|
  }

  lemma BelowSnoc(u: string, lists: seq<seq<string>>)
    requires lists != [] && !Repeatable(Below(u, lists[..|lists| - 1]))
    ensures Below(u, lists) == Inject(Below(u, lists[..|lists| - 1]), Block(lists[|lists| - 1]))
  {
  }

  /** With paths that no run of the program makes: as long as every block holds a key, every patch
      adds one. */
  lemma {:induction false} KeyedBlocksPileUp(t: string, lists: seq<seq<string>>)
    requires Absent(Strip(t), Marker()) && NewlineFreeLists(lists)
    requires !Repeatable(Strip(t)) && lists != [] && !SomeKeyless(lists[..|lists| - 1])
    ensures |PatchAll(t, lists)| == |Strip(t)| + BlockLengths(lists)
  {
    var u, init, last := Strip(t), lists[..|lists| - 1], lists[|lists| - 1];
    BelowLastBlock(t, init);
    BelowLastBlock(t, lists);
    InjectLength(Below(u, init), Block(last));
    if init != [] {
      SomeKeylessSnoc(init);
      KeyedBlocksPileUp(t, init);
      BelowSnoc(u, init);
    }
  }

  lemma KeyAlone()
    ensures Absent(Key(), Marker()) && Strip(Key()) == Key() && Index(Key(), Key()) == Some(0)
  {
    KeyFacts();
    MarkerFacts();
    hide Key, Marker;
    IndexIs(Key(), Key(), 0);
  }

  /** A text that starts with its key, patched once, twice and three times without paths: the
      second patch adds a block, and the third replaces it. */
  lemma KeyOnFirstLine()
    ensures PatchAll(Key(), [[]]) == Head() + Key()
    ensures PatchAll(Key(), [[], []]) == Head() + Head() + Key()
    ensures PatchAll(Key(), [[], [], []]) == Head() + Head() + Key()
  {
    KeyAlone();
    hide Key, Marker, Index, Absent, Strip, Patch, Head;
    BelowLastBlock(Key(), [[]]);
    assert CertPaths([]) && CertLists([[], []]) && CertLists([[], [], []]);
    FirstBlockStays(Key(), [[], []]);
    FirstBlockStays(Key(), [[], [], []]);
  }
}
