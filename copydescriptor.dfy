/** The request value object (`Copydescriptor`) and the helpers that build
    lists of requests from one file or from a list of files. */
module CopyDescriptors {
  import opened Paths
  import opened FileSystems

  /** One unit of work: the file to store, where it should appear relative
      to the destination root, and whether to link straight to the source. */
  datatype Copydescriptor = Copydescriptor(sourceP: Path, destRelativeP: Path, linkInPlace: bool)

  /** The message `Copydescriptor.__init__` raises for a missing source. */
  function MissingSourceMessage(sourceP: Path): string {
    "Source file " + sourceP + " does not exist."
  }

  /** `Copydescriptor(source_p, dest_relative_p, link_in_place=False)`: the
      source must exist (a directory will do, only existence is checked);
      the three fields are kept as given. */
  function NewCopydescriptor(fs: FS, sourceP: Path, destRelativeP: Path, linkInPlace: bool := false)
    : (r: Result<Copydescriptor>)
    ensures r.Ok? <==> Exists(fs, sourceP)
    ensures r.Ok? ==> r.value.sourceP == sourceP && r.value.destRelativeP == destRelativeP
                      && r.value.linkInPlace == linkInPlace
    ensures r.Err? ==> r.error == ValueError(MissingSourceMessage(sourceP))
  {
    if !Exists(fs, sourceP) then Err(ValueError(MissingSourceMessage(sourceP)))
    else Ok(Copydescriptor(sourceP, destRelativeP, linkInPlace))
  }

  /** `single_file_to_copydescriptors`: a one-element list whose destination
      is `join(relative_d, dest_n)`. */
  function SingleFileToCopydescriptors(fs: FS, fileP: Path, relativeD: Path, destN: string, linkInPlace: bool)
    : (r: Result<seq<Copydescriptor>>)
    ensures r.Ok? <==> Exists(fs, fileP)
    ensures r.Ok? ==> r.value == [Copydescriptor(fileP, Join(relativeD, destN), linkInPlace)]
    ensures r.Err? ==> r.error == ValueError(MissingSourceMessage(fileP))
  {
    match NewCopydescriptor(fs, fileP, Join(relativeD, destN), linkInPlace)
    case Err(e) => Err(e)
    case Ok(c) => Ok([c])
  }

  /** `relative_d`, with `None` read as the root level "". */
  function RelativeDir(relativeD: Option<Path>): Path {
    if relativeD.None? then "" else relativeD.value
  }

  /** The descriptor `file_list_to_copydescriptors` makes for one item. */
  function ItemDescriptor(item: Path, relativeD: Option<Path>, linkInPlace: bool): Copydescriptor {
    Copydescriptor(item, Join(RelativeDir(relativeD), Basename(item)), linkInPlace)
  }

  /** What `file_list_to_copydescriptors` returns: one descriptor per item,
      in input order, or the error of the first missing item. */
  function FileListDescriptors(fs: FS, items: seq<Path>, relativeD: Option<Path>, linkInPlace: bool)
    : Result<seq<Copydescriptor>>
    decreases |items|
  {
    if items == [] then Ok([])
    else if !Exists(fs, items[0]) then Err(ValueError(MissingSourceMessage(items[0])))
    else Prepend([ItemDescriptor(items[0], relativeD, linkInPlace)],
                 FileListDescriptors(fs, items[1..], relativeD, linkInPlace))
  }

  /** Descriptors made so far, in front of what the rest of the list yields. */
  function Prepend(cs: seq<Copydescriptor>, rest: Result<seq<Copydescriptor>>): Result<seq<Copydescriptor>> {
    if rest.Err? then rest else Ok(cs + rest.value)
  }

  /** Nothing in front changes nothing. */
  lemma PrependNothing(rest: Result<seq<Copydescriptor>>)
    ensures Prepend([], rest) == rest
  {
    if rest.Ok? {
      assert [] + rest.value == rest.value;
    }
  }

  /** One item is handled: its descriptor moves from the rest to the front. */
  lemma PrependStep(cs: seq<Copydescriptor>, c: Copydescriptor, rest: Result<seq<Copydescriptor>>)
    ensures Prepend(cs, Prepend([c], rest)) == Prepend(cs + [c], rest)
  {
    if rest.Ok? {
      assert cs + ([c] + rest.value) == (cs + [c]) + rest.value;
    }
  }

  /** The list succeeds exactly when every item exists. */
  lemma {:induction false} FileListSucceeds(fs: FS, items: seq<Path>, relativeD: Option<Path>, linkInPlace: bool)
    ensures FileListDescriptors(fs, items, relativeD, linkInPlace).Ok?
            <==> forall i :: 0 <= i < |items| ==> Exists(fs, items[i])
    decreases |items|
  {
    if items != [] {
      FileListSucceeds(fs, items[1..], relativeD, linkInPlace);
      if (forall i :: 0 <= i < |items| ==> Exists(fs, items[i])) {
        forall i | 0 <= i < |items[1..]| ensures Exists(fs, items[1..][i]) {
          assert items[1..][i] == items[i + 1];
        }
      } else if Exists(fs, items[0]) {
        var k :| 0 <= k < |items| && !Exists(fs, items[k]);
        assert items[1..][k - 1] == items[k];
      }
    }
  }

  /** `f` applied to each element, in order. */
  function MapSeq<A, B>(s: seq<A>, f: A -> B): (r: seq<B>)
    ensures |r| == |s|
  {
    if s == [] then [] else [f(s[0])] + MapSeq(s[1..], f)
  }

  /** Position `i` of the mapped sequence is `f` of element `i`. */
  lemma {:induction false} MapSeqAt<A, B>(s: seq<A>, f: A -> B, i: nat)
    requires i < |s|
    ensures MapSeq(s, f)[i] == f(s[i])
    decreases i
  {
    if i > 0 {
      MapSeqAt(s[1..], f, i - 1);
      assert s[1..][i - 1] == s[i];
    }
  }

  /** The descriptors of all items, in order. */
  function Describe(items: seq<Path>, relativeD: Option<Path>, linkInPlace: bool): (r: seq<Copydescriptor>) {
    MapSeq(items, item => ItemDescriptor(item, relativeD, linkInPlace))
  }

  /** A successful list holds the descriptor of each item at its position. */
  lemma {:induction false} FileListContents(fs: FS, items: seq<Path>, relativeD: Option<Path>, linkInPlace: bool)
    ensures var r := FileListDescriptors(fs, items, relativeD, linkInPlace);
            r.Ok? ==> r.value == Describe(items, relativeD, linkInPlace)
    decreases |items|
  {
    if items != [] {
      FileListContents(fs, items[1..], relativeD, linkInPlace);
    }
  }

  /** Put together: a successful list has one descriptor per item, each at
      the item's position. */
  lemma FileListItems(fs: FS, items: seq<Path>, relativeD: Option<Path>, linkInPlace: bool)
    ensures var r := FileListDescriptors(fs, items, relativeD, linkInPlace);
            r.Ok? ==> |r.value| == |items| &&
                      forall i :: 0 <= i < |items| ==> r.value[i] == ItemDescriptor(items[i], relativeD, linkInPlace)
  {
    FileListContents(fs, items, relativeD, linkInPlace);
    forall i | 0 <= i < |items|
      ensures Describe(items, relativeD, linkInPlace)[i] == ItemDescriptor(items[i], relativeD, linkInPlace)
    {
      MapSeqAt(items, item => ItemDescriptor(item, relativeD, linkInPlace), i);
    }
  }

  /** A failure names the first missing item. */
  lemma {:induction false} FileListFails(fs: FS, items: seq<Path>, relativeD: Option<Path>, linkInPlace: bool)
    ensures var r := FileListDescriptors(fs, items, relativeD, linkInPlace);
            r.Err? ==> exists k :: 0 <= k < |items| && !Exists(fs, items[k])
                                   && (forall i :: 0 <= i < k ==> Exists(fs, items[i]))
                                   && r.error == ValueError(MissingSourceMessage(items[k]))
    decreases |items|
  {
    var r := FileListDescriptors(fs, items, relativeD, linkInPlace);
    if items != [] && Exists(fs, items[0]) && r.Err? {
      FileListFails(fs, items[1..], relativeD, linkInPlace);
      var k :| 0 <= k < |items[1..]| && !Exists(fs, items[1..][k])
               && (forall i :: 0 <= i < k ==> Exists(fs, items[1..][i]))
               && r.error == ValueError(MissingSourceMessage(items[1..][k]));
      forall i | 0 <= i < k + 1 ensures Exists(fs, items[i]) {
        if i > 0 {
          assert items[i] == items[1..][i - 1];
        }
      }
      assert items[k + 1] == items[1..][k];
    }
  }

  /** `file_list_to_copydescriptors`: the loop over the items, building the
      list and raising at the first missing one. */
  method FileListToCopydescriptors(fs: FS, items: seq<Path>, relativeD: Option<Path>, linkInPlace: bool)
    returns (r: Result<seq<Copydescriptor>>)
    ensures r == FileListDescriptors(fs, items, relativeD, linkInPlace)
  {
    var copydescriptors: seq<Copydescriptor> := [];
    var rel := RelativeDir(relativeD);
    var i := 0;
    assert items[0..] == items;
    PrependNothing(FileListDescriptors(fs, items, relativeD, linkInPlace));
    while i < |items|
      invariant 0 <= i <= |items|
      invariant FileListDescriptors(fs, items, relativeD, linkInPlace)
                == Prepend(copydescriptors, FileListDescriptors(fs, items[i..], relativeD, linkInPlace))
    {
      var item := items[i];
      var destRelativeP := Join(rel, Split(item).1);
      var c := NewCopydescriptor(fs, item, destRelativeP, linkInPlace);
      assert items[i..][1..] == items[i + 1..];
      if c.Err? {
        assert FileListDescriptors(fs, items[i..], relativeD, linkInPlace) == Err(c.error);
        return Err(c.error);
      }
      assert c.value == ItemDescriptor(items[i], relativeD, linkInPlace);
      PrependStep(copydescriptors, c.value, FileListDescriptors(fs, items[i + 1..], relativeD, linkInPlace));
      copydescriptors := copydescriptors + [c.value];
      i := i + 1;
    }
    assert items[i..] == [];
    assert copydescriptors + [] == copydescriptors;
    return Ok(copydescriptors);
  }
}
