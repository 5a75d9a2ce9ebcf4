/** Object-store prefixes: `MinioFolder.create_prefix` (enums/minio.py) and its older twin
    `MinioFolder.create_path` (configs/MinioSettings.py). Both join their arguments with '/'. */
module Minio {
  import opened Wrappers
  import opened Text

  /** The fixed folder names; both enum copies carry the same four values. */
  datatype MinioFolder = PerfectFolder | ImperfectFolder | DataFolder | MetadataFolder {
    function Value(): string
    {
      match this
      case PerfectFolder => "perfect"
      case ImperfectFolder => "imperfect"
      case DataFolder => "data"
      case MetadataFolder => "metadata"
    }
  }

  /** An argument of the prefix builders: a folder member or a plain string. A member never
      equals a string, as for Python enums without a `str` mix-in. */
  datatype PathItem = Folder(folder: MinioFolder) | Plain(text: string) {
    /** `str(item)`, which for these enums is the member's value; also what `create_path`
        takes (the string itself, or `.value`). */
    function Str(): string
    {
      match this
      case Folder(f) => f.Value()
      case Plain(s) => s
    }

    /** Python truthiness: every enum member is truthy, a string when it is non-empty. */
    predicate Truthy()
    {
      Folder? || text != ""
    }
  }

  function Strs(items: seq<PathItem>): (r: seq<string>)
    ensures |r| == |items| && forall i :: 0 <= i < |items| ==> r[i] == items[i].Str()
  {
    seq(|items|, i requires 0 <= i < |items| => items[i].Str())
  }

  /** `[folder for folder in folders if folder != ignore]` */
  function Without(items: seq<PathItem>, ignore: PathItem): (r: seq<PathItem>)
    ensures |r| <= |items|
  {
    if items == [] then []
    else if items[0] == ignore then Without(items[1..], ignore)
    else [items[0]] + Without(items[1..], ignore)
  }

  /** The items `create_prefix` keeps: all of them unless `ignore` is truthy. */
  function Kept(items: seq<PathItem>, ignore: Option<PathItem>): seq<PathItem>
  {
    if ignore.Some? && ignore.value.Truthy() then Without(items, ignore.value) else items
  }

  /** `MinioFolder.create_prefix(*folders, ignore=ignore)` */
  function CreatePrefix(items: seq<PathItem>, ignore: Option<PathItem>): (r: string)
    ensures |Kept(items, ignore)| == 1 ==> r == Kept(items, ignore)[0].Str()
    ensures Kept(items, ignore) == [] ==> r == ""
  {
    Join(Strs(Kept(items, ignore)), '/')
  }

  /** `MinioFolder.create_path(*folders)` */
  function CreatePath(items: seq<PathItem>): (r: string)
    ensures |items| == 1 ==> r == items[0].Str()
  {
    Join(Strs(items), '/')
  }

  /** No item renders with a '/' in it. */
  predicate NoSlash(items: seq<PathItem>)
  {
    NoneContains(Strs(items), '/')
  }

  // ---------------------------------------------------------------------------
  // Properties

  /** Dropping keeps the order: filtering a concatenation filters each part. */
  lemma {:induction false} WithoutAppend(a: seq<PathItem>, b: seq<PathItem>, ignore: PathItem)
    ensures Without(a + b, ignore) == Without(a, ignore) + Without(b, ignore)
  {
    if a != [] {
      assert (a + b)[0] == a[0] && (a + b)[1..] == a[1..] + b;
      WithoutAppend(a[1..], b, ignore);
      if a[0] != ignore {
        assert [a[0]] + (Without(a[1..], ignore) + Without(b, ignore)) == ([a[0]] + Without(a[1..], ignore)) + Without(b, ignore);
      }
    } else {
      assert a + b == b;
    }
  }

  /** Filtering drops exactly the items equal to `ignore`. */
  lemma {:induction false} WithoutMembers(items: seq<PathItem>, ignore: PathItem)
    ensures forall x :: x in Without(items, ignore) <==> x in items && x != ignore
  {
    if items != [] {
      WithoutMembers(items[1..], ignore);
      assert items == [items[0]] + items[1..];
    }
  }

  /** `ignore` itself is never a part of the prefix, every other item is, and with separator-
      free items the prefix splits back into the kept items' strings. A falsy `ignore` (None or
      the empty string) filters nothing. */
  lemma CreatePrefixParts(items: seq<PathItem>, ignore: Option<PathItem>)
    requires NoSlash(items) && Kept(items, ignore) != []
    ensures Split(CreatePrefix(items, ignore), '/') == Strs(Kept(items, ignore))
    ensures ignore.Some? && ignore.value.Truthy() ==>
              forall x :: x in Kept(items, ignore) <==> x in items && x != ignore.value
    ensures ignore.None? || !ignore.value.Truthy() ==> Kept(items, ignore) == items
  {
    if ignore.Some? {
      WithoutMembers(items, ignore.value);
    }
    KeptNoSlash(items, ignore);
    SplitJoin(Strs(Kept(items, ignore)), '/');
  }

  /** A prefix of k separator-free kept items holds k - 1 separators; a single kept item gives
      a prefix with no '/' at all. */
  lemma CreatePrefixSeparators(items: seq<PathItem>, ignore: Option<PathItem>)
    requires NoSlash(items) && Kept(items, ignore) != []
    ensures Occurrences(CreatePrefix(items, ignore), '/') == |Kept(items, ignore)| - 1
  {
    KeptNoSlash(items, ignore);
    JoinSeparatorCount(Strs(Kept(items, ignore)), '/');
  }

  /** The kept items are among the given ones, so they are separator-free too. */
  lemma KeptNoSlash(items: seq<PathItem>, ignore: Option<PathItem>)
    requires NoSlash(items)
    ensures NoSlash(Kept(items, ignore))
  {
    var kept := Kept(items, ignore);
    if ignore.Some? {
      WithoutMembers(items, ignore.value);
    }
    forall i | 0 <= i < |kept|
      ensures '/' !in Strs(kept)[i]
    {
      assert kept[i] in items;
      var j :| 0 <= j < |items| && items[j] == kept[i];
      assert Strs(items)[j] == kept[i].Str();
    }
  }

  /** `create_path` keeps every item in argument order: its result splits back into them, and
      it agrees with `create_prefix` without `ignore`. */
  lemma CreatePathParts(items: seq<PathItem>)
    requires NoSlash(items) && items != []
    ensures Split(CreatePath(items), '/') == Strs(items)
    ensures Occurrences(CreatePath(items), '/') == |items| - 1
    ensures CreatePath(items) == CreatePrefix(items, None)
  {
    SplitJoin(Strs(items), '/');
    JoinSeparatorCount(Strs(items), '/');
  }

  /** `create_path(PERFECT, DATA) == 'perfect/data'` */
  lemma PerfectDataPath()
    ensures CreatePath([Folder(PerfectFolder), Folder(DataFolder)]) == "perfect/data"
  {
    assert Strs([Folder(PerfectFolder), Folder(DataFolder)]) == ["perfect", "data"];
  }
}
