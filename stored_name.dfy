/** The stored-file naming scheme shared by the multipart upload route
    (`storage.filename` in the VAT routes) and the n8n webhook:
    `<milliseconds>-<random integer in [0, 10^9]>-<original name>`. */
module StoredName {
  import opened Common
  import opened Decimal

  /** The directory uploads are written to, relative to the server's
      working directory. */
  const UploadDir: string := "uploads/vat_files"

  /** `Math.round(Math.random() * 1e9)`: an integer from 0 to 10^9. */
  type RandomSuffix = r: nat | r <= 1000000000

  /** `${Date.now()}-${Math.round(Math.random()*1e9)}-${name}`. */
  function UniqueFilename(ms: nat, rnd: RandomSuffix, name: string): (r: string)
    ensures EndsWith(r, "-" + name)
  {
    var r := NatToString(ms) + "-" + NatToString(rnd) + "-" + name;
    assert r[|r| - |"-" + name|..] == "-" + name;
    r
  }

  datatype Parts = Parts(ms: nat, rnd: nat, name: string)

  /** Reads a stored name back: the digits before the first `-`, the digits
      before the second `-`, and everything after it (the original name may
      itself contain `-`). */
  function ParseUniqueFilename(s: string): Option<Parts>
  {
    match FirstIn(s, {'-'})
    case None => None
    case Some(i) =>
      var a := s[..i];
      var rest := s[i + 1..];
      match FirstIn(rest, {'-'})
      case None => None
      case Some(j) =>
        var b := rest[..j];
        if a != [] && AllDigits(a) && b != [] && AllDigits(b) then
          Some(Parts(DigitsValue(a), DigitsValue(b), rest[j + 1..]))
        else None
  }

  lemma DigitsHaveNoDash(n: nat)
    ensures forall k :: 0 <= k < |NatToString(n)| ==> NatToString(n)[k] !in {'-'}
  {
  }

  /** The timestamp, the random suffix and the original name can all be read
      back from a stored name. */
  lemma ParseUniqueFilenameRoundTrip(ms: nat, rnd: RandomSuffix, name: string)
    ensures ParseUniqueFilename(UniqueFilename(ms, rnd, name)) == Some(Parts(ms, rnd, name))
  {
    var a := NatToString(ms);
    var b := NatToString(rnd);
    var s := UniqueFilename(ms, rnd, name);
    DigitsHaveNoDash(ms);
    DigitsHaveNoDash(rnd);
    assert s == a + ['-'] + (b + "-" + name);
    FirstInAfterFree(a, '-', b + "-" + name, {'-'});
    assert s[..|a|] == a;
    var rest := s[|a| + 1..];
    assert rest == b + ['-'] + name;
    FirstInAfterFree(b, '-', name, {'-'});
    assert rest[..|b|] == b;
    assert rest[|b| + 1..] == name;
    DigitsValueOfNatToString(ms);
    DigitsValueOfNatToString(rnd);
  }

  /** Two uploads get the same stored name only if they share the
      millisecond, the random suffix and the original name. */
  lemma UniqueFilenameInjective(ms1: nat, rnd1: RandomSuffix, name1: string,
                                ms2: nat, rnd2: RandomSuffix, name2: string)
    requires UniqueFilename(ms1, rnd1, name1) == UniqueFilename(ms2, rnd2, name2)
    ensures ms1 == ms2 && rnd1 == rnd2 && name1 == name2
  {
    ParseUniqueFilenameRoundTrip(ms1, rnd1, name1);
    ParseUniqueFilenameRoundTrip(ms2, rnd2, name2);
  }

  /** `path.join(UPLOAD_DIR, name)` for a name that needs no normalisation. */
  function UploadPath(name: string): (r: string)
    ensures StartsWith(r, UploadDir + "/") && EndsWith(r, name)
  {
    var r := UploadDir + "/" + name;
    assert r[..|UploadDir + "/"|] == UploadDir + "/";
    assert r[|r| - |name|..] == name;
    r
  }
}
