/**
 The upload target of `store_blob`: the SAS URL assembled from the storage
 information the hub returns, `https://<hostName>/<containerName>/<blobName>/?<sasToken>`.
 `ParseSasUrl` is its inverse, so the four fields can be recovered from the URL
 whenever the first three contain no `/`.
 */
module BlobUrl {
  import opened Wrappers

  /** The storage information `get_storage_info_for_blob` hands back. */
  datatype BlobInfo = BlobInfo(hostName: string, containerName: string, blobName: string, sasToken: string)

  const Scheme: string := "https://"

  /** The URL `store_blob` uploads to. */
  function SasUrl(b: BlobInfo): (url: string)
    ensures |url| == |Scheme| + |b.hostName| + |b.containerName| + |b.blobName| + |b.sasToken| + 4
    ensures url[..|Scheme|] == Scheme
    ensures url[|url| - |b.sasToken| - 2..] == "/?" + b.sasToken
  {
    Scheme + b.hostName + "/" + b.containerName + "/" + b.blobName + "/?" + b.sasToken
  }

  /** Splits `s` at its first `c`: the text before it and the text after it. */
  function SplitAt(s: string, c: char): (r: Option<(string, string)>)
    ensures r.Some? ==> s == r.value.0 + [c] + r.value.1 && c !in r.value.0
    ensures r.None? ==> c !in s
  {
    if |s| == 0 then None
    else if s[0] == c then Some(([], s[1..]))
    else
      match SplitAt(s[1..], c)
      case None => None
      case Some((before, after)) => Some(([s[0]] + before, after))
  }

  /** Splitting at the first `c` finds the `c` that follows a `c`-free prefix. */
  lemma {:induction false} SplitAtFirst(x: string, c: char, y: string)
    requires c !in x
    ensures SplitAt(x + [c] + y, c) == Some((x, y))
  {
    var s := x + [c] + y;
    if |x| == 0 {
      assert s == [c] + y;
      assert s[1..] == y;
    } else {
      assert s[0] == x[0];
      assert s[1..] == x[1..] + [c] + y;
      SplitAtFirst(x[1..], c, y);
      assert [x[0]] + x[1..] == x;
    }
  }

  /** The pieces `ParseSasUrl` splits off put back together give the URL. */
  lemma Reassemble(url: string, b: BlobInfo, rest: string, rest': string)
    requires |url| >= |Scheme| && url[..|Scheme|] == Scheme
    requires url[|Scheme|..] == b.hostName + "/" + rest
    requires rest == b.containerName + "/" + rest'
    requires rest' == b.blobName + "/" + ("?" + b.sasToken)
    ensures SasUrl(b) == url
  {
  }

  /** Reads the four fields back out of a SAS URL. */
  function ParseSasUrl(url: string): (r: Option<BlobInfo>)
    ensures r.Some? ==> SasUrl(r.value) == url
    ensures r.Some? ==> '/' !in r.value.hostName && '/' !in r.value.containerName && '/' !in r.value.blobName
  {
    if |url| < |Scheme| || url[..|Scheme|] != Scheme then None
    else
      match SplitAt(url[|Scheme|..], '/')
      case None => None
      case Some((host, rest)) =>
        match SplitAt(rest, '/')
        case None => None
        case Some((container, rest')) =>
          match SplitAt(rest', '/')
          case None => None
          case Some((blob, rest'')) =>
            if |rest''| > 0 && rest''[0] == '?' then
              var b := BlobInfo(host, container, blob, rest''[1..]);
              assert rest'' == "?" + b.sasToken;
              Reassemble(url, b, rest, rest');
              Some(b)
            else None
  }

  /** The round trip: a URL built from fields whose first three hold no `/`
      parses back to exactly those fields. */
  lemma SasUrlRoundTrip(b: BlobInfo)
    requires '/' !in b.hostName && '/' !in b.containerName && '/' !in b.blobName
    ensures ParseSasUrl(SasUrl(b)) == Some(b)
  {
    var url := SasUrl(b);
    var tail := b.hostName + "/" + (b.containerName + "/" + (b.blobName + "/" + ("?" + b.sasToken)));
    assert url == Scheme + tail;
    assert url[|Scheme|..] == tail;
    SplitAtFirst(b.hostName, '/', b.containerName + "/" + (b.blobName + "/" + ("?" + b.sasToken)));
    SplitAtFirst(b.containerName, '/', b.blobName + "/" + ("?" + b.sasToken));
    SplitAtFirst(b.blobName, '/', "?" + b.sasToken);
  }
}
