/** The maintenance script that rewrites every stored `localPath` to a bare
    file name: it strips every `uploads/vat_files/`, any leading `/` or `\`,
    and keeps what follows the last separator.  The database connection is
    not modelled: the fetched records are an array. */
module FixLocalPath {
  import opened Common
  import opened Store

  const Prefix: string := "uploads/vat_files/"
  const PathSeps: set<char> := {'/', '\\'}

  /** What the `while (includes) replace` loop computes: every occurrence
      removed, leftmost first, until none is left. */
  function RemoveAll(s: string): (r: string)
    ensures !Contains(r, Prefix)
    decreases |s|
  {
    if Contains(s, Prefix) then RemoveAll(RemoveFirst(s, Prefix)) else s
  }

  /** `replace(/^[/\\]+/, '')`: the leading run of separators removed. */
  function TrimLeadingSeps(s: string): (r: string)
    ensures EndsWith(s, r)
    ensures r == [] || r[0] !in PathSeps
    ensures forall k :: 0 <= k < |s| - |r| ==> s[k] in PathSeps
  {
    if s != [] && s[0] in PathSeps then
      var r := TrimLeadingSeps(s[1..]);
      assert s[|s| - |r|..] == s[1..][|s[1..]| - |r|..];
      r
    else s
  }

  /** The file name the script keeps for a stored path. */
  function Normalise(s: string): string
  {
    LastSegment(TrimLeadingSeps(RemoveAll(s)), PathSeps)
  }

  /** The loop body applied to one path. */
  method NormalisePath(localPath: string) returns (filename: string)
    ensures filename == Normalise(localPath)
  {
    var p := localPath;
    while Contains(p, Prefix)
      invariant RemoveAll(p) == RemoveAll(localPath)
      decreases |p|
    {
      p := RemoveFirst(p, Prefix);
    }
    p := TrimLeadingSeps(p);
    filename := LastSegment(p, PathSeps);
  }

  /** A string without separators cannot hold the prefix, which ends in `/`. */
  lemma NoSepsNoPrefix(s: string)
    requires NoneIn(s, PathSeps)
    ensures !Contains(s, Prefix)
  {
    forall i | 0 <= i <= |s| - |Prefix| ensures !OccursAt(s, Prefix, i) {
      assert s[i + 17] !in PathSeps;
      assert Prefix[17] == '/';
    }
  }

  /** The result is a bare name: no separator and no prefix left. */
  lemma NormaliseIsBare(s: string)
    ensures NoneIn(Normalise(s), PathSeps)
    ensures !Contains(Normalise(s), Prefix)
  {
    LastSegmentProperties(TrimLeadingSeps(RemoveAll(s)), PathSeps);
    NoSepsNoPrefix(Normalise(s));
  }

  /** A bare name is left as it is. */
  lemma NormaliseOfBare(s: string)
    requires NoneIn(s, PathSeps)
    ensures Normalise(s) == s
  {
    NoSepsNoPrefix(s);
    LastSegmentProperties(s, PathSeps);
  }

  /** Normalising twice is normalising once. */
  lemma NormaliseIdempotent(s: string)
    ensures Normalise(Normalise(s)) == Normalise(s)
  {
    NormaliseIsBare(s);
    NormaliseOfBare(Normalise(s));
  }

  /** A leading prefix makes no difference. */
  lemma NormalisePrefixed(x: string)
    ensures Normalise(Prefix + x) == Normalise(x)
  {
    var s := Prefix + x;
    assert OccursAt(s, Prefix, 0);
    assert IndexOf(s, Prefix) == Some(0);
    assert RemoveFirst(s, Prefix) == x;
  }

  /** The update condition: the record has a path, and the new name is
      non-empty and differs from it. */
  predicate Changes(f: VatFile) {
    f.localPath.Some? && Normalise(f.localPath.value) != "" && Normalise(f.localPath.value) != f.localPath.value
  }

  /** The record after the loop body. */
  function Fixed(f: VatFile): VatFile
  {
    if Changes(f) then f.(localPath := Some(Normalise(f.localPath.value))) else f
  }

  /** Only `localPath` changes, to the bare name, and only when the update
      condition holds. */
  lemma FixedChangesOnlyPath(f: VatFile)
    ensures f.localPath.None? ==> Fixed(f) == f
    ensures Fixed(f).(localPath := f.localPath) == f
    ensures Changes(f) ==> Fixed(f).localPath == Some(Normalise(f.localPath.value))
    ensures !Changes(f) ==> Fixed(f) == f
  {
  }

  /** The number of records the script saves. */
  function CountChanges(s: seq<VatFile>): (n: nat)
    ensures n <= |s|
  {
    if s == [] then 0 else CountChanges(s[..|s| - 1]) + (if Changes(s[|s| - 1]) then 1 else 0)
  }

  lemma CountChangesStep(s: seq<VatFile>, f: VatFile)
    ensures CountChanges(s + [f]) == CountChanges(s) + (if Changes(f) then 1 else 0)
  {
    assert (s + [f])[..|s|] == s;
  }

  /** The body of the loop for one record: whether it is saved, and the
      record as it then is. */
  method FixRecord(vatFile: VatFile) returns (result: VatFile, saved: bool)
    ensures result == Fixed(vatFile) && saved == Changes(vatFile)
  {
    result, saved := vatFile, false;
    if vatFile.localPath.Some? {
      var originalPath := vatFile.localPath.value;
      var filename := NormalisePath(originalPath);
      if filename != "" && filename != originalPath {
        result, saved := vatFile.(localPath := Some(filename)), true;
      }
    }
  }

  /** The collection after the script: every record as `Fixed` makes it. */
  function FixedAll(s: seq<VatFile>): (r: seq<VatFile>)
    ensures |r| == |s|
  {
    if s == [] then [] else FixedAll(s[..|s| - 1]) + [Fixed(s[|s| - 1])]
  }

  /** Each record is fixed on its own, whatever the others are. */
  lemma {:induction false} FixedAllAt(s: seq<VatFile>, k: nat)
    requires k < |s|
    ensures FixedAll(s)[k] == Fixed(s[k])
  {
    if k < |s| - 1 {
      FixedAllAt(s[..|s| - 1], k);
    }
  }

  lemma FixedAllStep(s: seq<VatFile>, f: VatFile)
    ensures FixedAll(s + [f]) == FixedAll(s) + [Fixed(f)]
  {
    assert (s + [f])[..|s|] == s;
  }

  lemma UpdateSplits<T>(before: seq<T>, i: nat, x: T, after: seq<T>)
    requires i < |before| && after == before[i := x]
    ensures after[..i + 1] == before[..i] + [x] && after[i + 1..] == before[i + 1..]
  {
  }

  /** The loop over the fetched records: each is rewritten as `Fixed`
      says, and `fixed` counts the saves. */
  method FixLocalPaths(records: array<VatFile>) returns (fixed: nat)
    modifies records
    ensures records[..] == FixedAll(old(records[..]))
    ensures fixed == CountChanges(old(records[..]))
  {
    ghost var original := records[..];
    fixed := 0;
    for i := 0 to records.Length
      invariant records[..i] == FixedAll(original[..i])
      invariant records[i..] == original[i..]
      invariant fixed == CountChanges(original[..i])
    {
      assert original[..i + 1] == original[..i] + [original[i]];
      assert records[i] == original[i] by { assert records[i..][0] == original[i..][0]; }
      ghost var before := records[..];
      var result, saved := FixRecord(records[i]);
      records[i] := result;
      UpdateSplits(before, i, result, records[..]);
      if saved {
        fixed := fixed + 1;
      }
      FixedAllStep(original[..i], original[i]);
      CountChangesStep(original[..i], original[i]);
    }
    assert original[..records.Length] == original;
    assert records[..records.Length] == records[..];
  }

  /** A second run finds nothing to fix. */
  lemma {:induction false} SecondRunFixesNothing(s: seq<VatFile>)
    ensures CountChanges(FixedAll(s)) == 0
  {
    if s != [] {
      var s' := s[..|s| - 1];
      SecondRunFixesNothing(s');
      var t := FixedAll(s);
      assert t[..|t| - 1] == FixedAll(s');
      var f := s[|s| - 1];
      if Changes(f) {
        NormaliseIdempotent(f.localPath.value);
      }
    }
  }
}
