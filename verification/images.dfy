/**
 `imageToLink` of backend.js: an S3 image reference rendered as its public download link,
 and a parser showing that the link identifies the object it was made from.
 */
module Images {
  import opened Wrappers
  import opened Model

  const Scheme: string := "https://"
  const S3Host: string := ".s3.amazonaws.com/"

  /** `https://<bucket>.s3.amazonaws.com/<uuid>.<ext>`; the region takes no part. */
  function ImageToLink(i: Image): (r: string)
    ensures |r| == |Scheme| + |i.bucket| + |S3Host| + |i.uuid| + 1 + |i.ext|
    ensures r[..|Scheme|] == Scheme
    ensures r[|r| - |i.ext| - 1..] == "." + i.ext
  {
    Scheme + i.bucket + S3Host + i.uuid + "." + i.ext
  }

  /** The position of the last `c` in `s`, if any. */
  function LastIndexOf(s: string, c: char): (r: Option<nat>)
    ensures r.Some? ==> r.value < |s| && s[r.value] == c && forall j :: r.value < j < |s| ==> s[j] != c
    ensures r.None? ==> forall j :: 0 <= j < |s| ==> s[j] != c
  {
    if |s| == 0 then None
    else if s[|s| - 1] == c then Some(|s| - 1)
    else LastIndexOf(s[..|s| - 1], c)
  }

  /** The last `c` in `a + [c] + b`, when `b` has none, is the one between them. */
  lemma LastIndexOfSplit(a: string, c: char, b: string)
    requires forall j :: 0 <= j < |b| ==> b[j] != c
    ensures LastIndexOf(a + [c] + b, c) == Some(|a|)
  {
    var s := a + [c] + b;
    var r := LastIndexOf(s, c);
    assert s[|a|] == c;
    if r.None? {
      assert false;
    }
    assert r.value >= |a|;
    if r.value > |a| {
      assert false;
    }
  }

  /** Split a link back into (bucket, uuid, ext): the extension follows the last `.`, the
      uuid the last `/` before it, and the rest must be scheme, bucket and S3 host. */
  function ParseLink(link: string): Option<(string, string, string)>
  {
    match LastIndexOf(link, '.')
    case None => None
    case Some(k) =>
      var rest := link[..k];
      match LastIndexOf(rest, '/')
      case None => None
      case Some(m) =>
        var head := rest[..m + 1];
        if |head| >= |Scheme| + |S3Host| && head[..|Scheme|] == Scheme && head[|head| - |S3Host|..] == S3Host
        then Some((head[|Scheme|..|head| - |S3Host|], rest[m + 1..], link[k + 1..]))
        else None
  }

  /** An image whose uuid and extension hold no `/` and whose extension holds no `.`
      (a UUID and a file extension, as the client uploads them). */
  predicate Parseable(i: Image)
  {
    && (forall j :: 0 <= j < |i.ext| ==> i.ext[j] != '.' && i.ext[j] != '/')
    && (forall j :: 0 <= j < |i.uuid| ==> i.uuid[j] != '/')
  }

  /** The link of a parseable image gives back its bucket, uuid and extension. */
  lemma {:induction false} LinkRoundTrip(i: Image)
    requires Parseable(i)
    ensures ParseLink(ImageToLink(i)) == Some((i.bucket, i.uuid, i.ext))
  {
    var link := ImageToLink(i);
    var rest := Scheme + i.bucket + S3Host + i.uuid;
    assert link == rest + ['.'] + i.ext;
    LastIndexOfSplit(rest, '.', i.ext);
    assert link[..|rest|] == rest;
    assert link[|rest| + 1..] == i.ext;
    var head := Scheme + i.bucket + S3Host;
    var headLess := Scheme + i.bucket + ".s3.amazonaws.com";
    assert head == headLess + ['/'];
    assert rest == headLess + ['/'] + i.uuid;
    LastIndexOfSplit(headLess, '/', i.uuid);
    assert rest[..|headLess| + 1] == head;
    assert rest[|headLess| + 1..] == i.uuid;
    assert head[..|Scheme|] == Scheme;
    assert head[|head| - |S3Host|..] == S3Host;
    assert head[|Scheme|..|head| - |S3Host|] == i.bucket;
  }

  /** Two parseable images share a link only if they name the same S3 object; the region
      is the one coordinate the link drops. */
  lemma {:induction false} LinkIdentifiesObject(a: Image, b: Image)
    requires Parseable(a) && Parseable(b)
    ensures ImageToLink(a) == ImageToLink(b) <==> a.bucket == b.bucket && a.uuid == b.uuid && a.ext == b.ext
  {
    if ImageToLink(a) == ImageToLink(b) {
      LinkRoundTrip(a);
      LinkRoundTrip(b);
    }
  }
}
