/** The pure rules inside MolnsLib/Docker.py: extracting an image id from build
    output, the DockerImage value with its serialiser and parser, the target path
    of `put_archive` and the status mapping of `container_status`. */
module Docker {
  import opened Results
  import opened PyStrings

  /** Constants.DockerImageDelimiter and Constants.DockerNonExistentTag, whose
      values are not part of this model. */
  datatype ImageConstants = ImageConstants(delimiter: string, nonExistentTag: string)

  /** The delimiter is non-empty, as `str.split` requires. */
  predicate WellFormed(c: ImageConstants)
  {
    |c.delimiter| > 0
  }

  // ---------------------------------------------------------------------------
  // get_docker_image_id_from_string: the regular expression [a-z0-9]{12}

  const ImageIdLength: nat := 12

  predicate IsIdChar(ch: char)
  {
    'a' <= ch <= 'z' || '0' <= ch <= '9'
  }

  /** `s` matches [a-z0-9]{12} as a whole. */
  predicate IsIdRun(s: string)
  {
    |s| == ImageIdLength && forall i :: 0 <= i < |s| ==> IsIdChar(s[i])
  }

  /** A match of [a-z0-9]{12} starts at index `k` of `s`. */
  predicate RunAt(s: string, k: int)
  {
    0 <= k && k + ImageIdLength <= |s| && IsIdRun(s[k..k + ImageIdLength])
  }

  /** `k` is the leftmost index where a match starts. */
  ghost predicate FirstRunAt(s: string, k: int)
  {
    RunAt(s, k) && forall j :: 0 <= j < k ==> !RunAt(s, j)
  }

  /** `re.findall(r'[a-z0-9]{12}', s)[0]`, or None when there is no match. */
  function ImageIdFromString(s: string): (r: Option<string>)
    ensures r.Some? ==> IsIdRun(r.value)
    decreases |s|
  {
    if |s| < ImageIdLength then None
    else if IsIdRun(s[..ImageIdLength]) then Some(s[..ImageIdLength])
    else ImageIdFromString(s[1..])
  }

  /** Dropping the first character shifts every match one place left. */
  lemma RunShift(s: string, k: nat)
    requires |s| > 0
    ensures RunAt(s, k + 1) == RunAt(s[1..], k)
  {
    if k + 1 + ImageIdLength <= |s| {
      assert s[1..][k..k + ImageIdLength] == s[k + 1..k + 1 + ImageIdLength];
    }
  }

  /** The extracted id is the leftmost match and occurs in the input; None means there is no match. */
  lemma {:induction false} ImageIdIsLeftmostMatch(s: string)
    ensures match ImageIdFromString(s)
      case None => forall k :: !RunAt(s, k)
      case Some(v) => exists k :: FirstRunAt(s, k) && v == s[k..k + ImageIdLength]
    decreases |s|
  {
    if |s| < ImageIdLength {
    } else if IsIdRun(s[..ImageIdLength]) {
      assert s[0..ImageIdLength] == s[..ImageIdLength];
      assert FirstRunAt(s, 0);
    } else {
      assert s[0..ImageIdLength] == s[..ImageIdLength];
      ImageIdIsLeftmostMatch(s[1..]);
      match ImageIdFromString(s[1..])
      case None =>
        forall k ensures !RunAt(s, k) {
          if k >= 1 {
            RunShift(s, k - 1);
          }
        }
      case Some(v) =>
        var k :| FirstRunAt(s[1..], k) && v == s[1..][k..k + ImageIdLength];
        RunShift(s, k);
        assert s[1..][k..k + ImageIdLength] == s[k + 1..k + 1 + ImageIdLength];
        forall j | 0 <= j < k + 1 ensures !RunAt(s, j) {
          if j >= 1 {
            RunShift(s, j - 1);
          }
        }
        assert FirstRunAt(s, k + 1);
    }
  }

  /** `DockerImage.looks_like_image_id`: the extracted id is the whole string
      (the source compares with `is`; equality here). */
  predicate LooksLikeImageId(s: string)
  {
    ImageIdFromString(s) == Some(s)
  }

  /** A string looks like an image id exactly when it is twelve characters from [a-z0-9]. */
  lemma LooksLikeImageIdExactly(s: string)
    ensures LooksLikeImageId(s) <==> IsIdRun(s)
  {
    if IsIdRun(s) {
      assert s[..ImageIdLength] == s;
    }
  }

  // ---------------------------------------------------------------------------
  // DockerImage

  /** A constructed DockerImage: each field holds a string, the non-existent tag
      standing for a missing one. */
  datatype DockerImage = DockerImage(imageId: string, imageTag: string)

  /** InvalidDockerImageException, by the three places that raise it. */
  datatype ImageError = BothMissing | NothingToSerialize | UnexpectedFormat

  /** A constructor argument that is None or the non-existent tag. */
  predicate Missing(c: ImageConstants, x: Option<string>)
  {
    x.None? || x.value == c.nonExistentTag
  }

  /** At least one field holds a real value. */
  predicate HasRealField(c: ImageConstants, img: DockerImage)
  {
    img.imageId != c.nonExistentTag || img.imageTag != c.nonExistentTag
  }

  /** `DockerImage(image_id, image_tag)`. */
  function NewImage(c: ImageConstants, imageId: Option<string>, imageTag: Option<string>): (r: Result<DockerImage, ImageError>)
    ensures r.Err? <==> Missing(c, imageId) && Missing(c, imageTag)
    ensures r.Err? ==> r.error == BothMissing
    ensures r.Ok? ==> HasRealField(c, r.value)
    ensures r.Ok? ==> r.value.imageId == (if imageId.Some? then imageId.value else c.nonExistentTag)
    ensures r.Ok? ==> r.value.imageTag == (if imageTag.Some? then imageTag.value else c.nonExistentTag)
  {
    if Missing(c, imageId) && Missing(c, imageTag) then Err(BothMissing)
    else
      Ok(DockerImage(
        if imageId.Some? then imageId.value else c.nonExistentTag,
        if imageTag.Some? then imageTag.value else c.nonExistentTag))
  }

  /** `str(image)`. */
  function Serialize(c: ImageConstants, img: DockerImage): (r: Result<string, ImageError>)
    ensures r.Ok? <==> HasRealField(c, img)
  {
    if img.imageId == c.nonExistentTag && img.imageTag == c.nonExistentTag then Err(NothingToSerialize)
    else Ok(img.imageId + c.delimiter + img.imageTag)
  }

  /** `DockerImage.from_string(s)`. */
  function Parse(c: ImageConstants, s: string): (r: Result<DockerImage, ImageError>)
    requires WellFormed(c)
    ensures r.Ok? ==> HasRealField(c, r.value)
    ensures |Split(s, c.delimiter)| > 2 ==> r == Err(UnexpectedFormat)
  {
    var parts := Split(s, c.delimiter);
    if |parts| == 2 then NewImage(c, Some(parts[0]), Some(parts[1]))
    else if |parts| > 2 then Err(UnexpectedFormat)
    else if LooksLikeImageId(parts[0]) then NewImage(c, Some(parts[0]), None)
    else NewImage(c, None, Some(parts[0]))
  }

  /** Serialising a constructed image never fails and writes id, delimiter, tag. */
  lemma SerializeConstructed(c: ImageConstants, imageId: Option<string>, imageTag: Option<string>)
    requires NewImage(c, imageId, imageTag).Ok?
    ensures Serialize(c, NewImage(c, imageId, imageTag).value)
      == Ok((if imageId.Some? then imageId.value else c.nonExistentTag) + c.delimiter
            + (if imageTag.Some? then imageTag.value else c.nonExistentTag))
  {
  }

  /** The pairing `build_image` and `create_container` rely on: parsing a
      serialised image gives the same image back, when the id is cleanly
      separated from the delimiter and the tag does not contain it. */
  lemma ParseSerialize(c: ImageConstants, img: DockerImage)
    requires WellFormed(c) && HasRealField(c, img)
    requires SeparatesCleanly(img.imageId, c.delimiter) && !Contains(img.imageTag, c.delimiter)
    ensures Serialize(c, img).Ok? && Parse(c, Serialize(c, img).value) == Ok(img)
  {
    SplitTwoFields(img.imageId, c.delimiter, img.imageTag);
  }

  /** With a delimiter that cannot overlap itself, it suffices that neither field contains it. */
  lemma ParseSerializeSimple(c: ImageConstants, img: DockerImage)
    requires WellFormed(c) && NoSelfOverlap(c.delimiter) && HasRealField(c, img)
    requires !Contains(img.imageId, c.delimiter) && !Contains(img.imageTag, c.delimiter)
    ensures Serialize(c, img).Ok? && Parse(c, Serialize(c, img).value) == Ok(img)
  {
    CleanWithoutSelfOverlap(img.imageId, c.delimiter);
    ParseSerialize(c, img);
  }

  /** Without clean separation the round trip can fail: with delimiter "aa",
      the image ("a", "b") serialises to "aaab", which parses as ("", "ab"). */
  lemma ParseSerializeNeedsCleanSeparation()
    ensures var c := ImageConstants("aa", "none");
      && !Contains("a", c.delimiter) && !Contains("b", c.delimiter)
      && Serialize(c, DockerImage("a", "b")) == Ok("aaab")
      && Parse(c, "aaab") == Ok(DockerImage("", "ab"))
  {
    var d := "aa";
    assert !OccursAt("a", d, 0);
    assert "a" + d + "b" == "aaab";
    assert "aaab"[..2] == d;
    assert "aaab"[2..] == "ab";
    assert "ab"[..2][1] == 'b' != d[1];
    assert "ab"[1..] == "b";
    assert Split("b", d) == ["b"];
    assert ['a'] + "b" == "ab";
    assert Split("ab", d) == ["ab"];
    assert Split("aaab", d) == ["", "ab"];
  }

  /** A string without the delimiter is an image id when it looks like one, a tag otherwise. */
  lemma ParseSingleField(c: ImageConstants, s: string)
    requires WellFormed(c) && !Contains(s, c.delimiter)
    ensures Parse(c, s) == if IsIdRun(s) then NewImage(c, Some(s), None) else NewImage(c, None, Some(s))
  {
    SplitWithoutSeparator(s, c.delimiter);
    LooksLikeImageIdExactly(s);
  }

  // ---------------------------------------------------------------------------
  // put_archive and container_status

  const HomeDirectory := "/home/ubuntu/"

  /** The path `put_archive` copies to: prefixed with the home directory unless it already is. */
  function ArchiveTargetPath(path: string): (r: string)
    ensures StartsWith(r, HomeDirectory)
    ensures StartsWith(path, HomeDirectory) ==> r == path
    ensures !StartsWith(path, HomeDirectory) ==> r == HomeDirectory + path
  {
    if StartsWith(path, HomeDirectory) then path else HomeDirectory + path
  }

  /** Prefixing twice is prefixing once. */
  lemma ArchiveTargetPathIdempotent(path: string)
    ensures ArchiveTargetPath(ArchiveTargetPath(path)) == ArchiveTargetPath(path)
  {
  }

  /** ProviderBase.STATUS_RUNNING, STATUS_STOPPED and STATUS_TERMINATED. */
  datatype ContainerStatus = Running | Stopped | Terminated

  /** What `inspect_container` gave back: `str` of State.Status (`"None"` when
      the state has no status), a NotFound error, or any other error, such as a
      missing State (which `container_status` does not catch). */
  datatype Inspection = Inspected(state: string) | ContainerNotFound | OtherFailure

  /** `container_status`; None when the inspection error propagates. */
  function StatusOf(x: Inspection): (r: Option<ContainerStatus>)
    ensures r == Some(Running) <==> x.Inspected? && StartsWith(x.state, "running")
    ensures r == Some(Stopped) <==> x.Inspected? && !StartsWith(x.state, "running")
    ensures r == Some(Terminated) <==> x.ContainerNotFound?
    ensures r == None <==> x.OtherFailure?
  {
    match x
    case Inspected(state) => if StartsWith(state, "running") then Some(Running) else Some(Stopped)
    case ContainerNotFound => Some(Terminated)
    case OtherFailure => None
  }
}
