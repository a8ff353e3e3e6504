/**
 * Object keys and public URLs of uploaded attachments (backend/src/utils/s3.ts).
 * The bucket and region come from the environment, the timestamp from the
 * clock and the outcome of `putObject` from the storage service; all three
 * are inputs.
 */
module S3 {
  import opened Wrappers
  import opened Bytes
  import opened Strings

  /** The multer file handed to `s3Upload`. */
  datatype UploadFile = UploadFile(originalname: string, buffer: seq<byte>, mimetype: string)

  /** What `s3Upload` returns. */
  datatype Uploaded = Uploaded(fileKey: string, fileName: string, url: string)

  /** `S3_BUCKET_NAME` and `S3_REGION`. */
  datatype S3Env = S3Env(bucket: string, region: string)

  const KeyPrefix: string := "nexora/"
  const NoFileMessage: string := "No file provided"

  /** Every space of the original name replaced by `-` (`replace(/ /g, '-')`). */
  function SafeName(name: string): (r: string)
    ensures ' ' !in r && |r| == |name|
    ensures forall i :: 0 <= i < |name| ==> r[i] == if name[i] == ' ' then '-' else name[i]
  {
    ReplaceAllRemovesChar(name, ' ', "-");
    ReplaceAllByChar(name, ' ', '-');
    ReplaceAll(name, " ", "-")
  }

  /** A one-character pattern replaced by one character maps the string position by position. */
  lemma {:induction false} ReplaceAllByChar(s: string, c: char, d: char)
    ensures |ReplaceAll(s, [c], [d])| == |s|
    ensures forall i :: 0 <= i < |s| ==> ReplaceAll(s, [c], [d])[i] == if s[i] == c then d else s[i]
    decreases |s|
  {
    if |s| >= 1 {
      ReplaceAllByChar(s[1..], c, d);
      var r := ReplaceAll(s, [c], [d]);
      assert s[..1] == [s[0]];
      forall i | 0 <= i < |s| ensures r[i] == if s[i] == c then d else s[i] {
        if i > 0 { assert s[i] == s[1..][i - 1]; }
      }
    }
  }

  /** The object key: `nexora/<timestamp>-<name with spaces as dashes>`. */
  function FileKey(timestamp: nat, originalname: string): (k: string)
    ensures StartsWith(k, KeyPrefix)
    ensures ' ' !in k
    ensures |k| > |KeyPrefix| + |originalname|
    ensures k[|k| - |originalname|..] == SafeName(originalname)
  {
    var k := KeyPrefix + NatToString(timestamp) + "-" + SafeName(originalname);
    assert k[..|KeyPrefix|] == KeyPrefix;
    assert forall c :: c in NatToString(timestamp) ==> IsDigit(c);
    k
  }

  /** A name without spaces is kept verbatim after the timestamp. */
  lemma FileKeyKeepsPlainName(timestamp: nat, originalname: string)
    requires ' ' !in originalname
    ensures FileKey(timestamp, originalname) == KeyPrefix + NatToString(timestamp) + "-" + originalname
  {
    assert SafeName(originalname) == originalname;
  }

  /** `getS3Url` (and the `publicUrl` of the upload): the virtual-hosted URL of a key. */
  function S3Url(env: S3Env, key: string): (u: string)
    ensures StartsWith(u, "https://" + env.bucket + ".s3." + env.region + ".amazonaws.com/")
    ensures |u| >= |key| && u[|u| - |key|..] == key
  {
    var host := "https://" + env.bucket + ".s3." + env.region + ".amazonaws.com/";
    assert (host + key)[..|host|] == host;
    host + key
  }

  /** Within one bucket and region, distinct keys have distinct URLs. */
  lemma S3UrlInjective(env: S3Env, k1: string, k2: string)
    requires S3Url(env, k1) == S3Url(env, k2)
    ensures k1 == k2
  {
    var host := "https://" + env.bucket + ".s3." + env.region + ".amazonaws.com/";
    assert S3Url(env, k1)[|host|..] == k1;
    assert S3Url(env, k2)[|host|..] == k2;
  }

  /**
   * `s3Upload`: no file raises "No file provided" before anything is sent; a
   * failing `putObject` raises its error; otherwise the key, the original
   * name and the public URL of the key.
   */
  function S3Upload(env: S3Env, file: Option<UploadFile>, timestamp: nat, put: Result<(), string>): (r: Result<Uploaded, string>)
    ensures file.None? ==> r == Err(NoFileMessage)
    ensures file.Some? && put.Err? ==> r == Err(put.error)
    ensures r.Ok? <==> file.Some? && put.Ok?
    ensures r.Ok? ==> r.value.fileName == file.value.originalname
    ensures r.Ok? ==> r.value.fileKey == FileKey(timestamp, file.value.originalname)
    ensures r.Ok? ==> r.value.url == S3Url(env, r.value.fileKey)
  {
    match file
    case None => Err(NoFileMessage)
    case Some(f) =>
      var fileKey := FileKey(timestamp, f.originalname);
      match put
      case Err(e) => Err(e)
      case Ok(_) => Ok(Uploaded(fileKey, f.originalname, S3Url(env, fileKey)))
  }
}
