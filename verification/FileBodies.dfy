/** Bodies of the file messages: fields ended by a NUL byte, then a last field to the end. */
module FileBodies {
  import opened Prelude
  import opened Wire

  const NUL: byte := 0

  /** std::find of a NUL from a position; the length when there is none. */
  function FindNul(s: seq<byte>, from: nat): (i: nat)
    requires from <= |s|
    ensures from <= i <= |s|
    ensures i < |s| ==> s[i] == NUL
    ensures forall j :: from <= j < i ==> s[j] != NUL
    decreases |s| - from
  {
    if from == |s| || s[from] == NUL then from else FindNul(s, from + 1)
  }

  predicate NulFree(s: seq<byte>) {
    forall i :: 0 <= i < |s| ==> s[i] != NUL
  }

  // ---------------------------------------------------------------- creating

  function CreateFileUpload(serverRelativePath: seq<byte>, fileName: seq<byte>, content: seq<byte>,
                            sender: uint32): Msg
  {
    Msg(FILE_UPLOAD, sender, serverRelativePath + [NUL] + fileName + [NUL] + content)
  }

  /** Throws when the content does not fit; the room left is computed in unsigned 64 bits. */
  function CreateFileResponse(relativePath: seq<byte>, content: seq<byte>, sender: uint32): Option<Msg> {
    if |content| > (MAX_BODY_LENGTH - (|relativePath| + 1)) % 0x1_0000_0000_0000_0000 then None
    else Some(Msg(FILE_RESPONSE, sender, relativePath + [NUL] + content))
  }

  function CreateFileError(errorMessage: seq<byte>, relatedPath: seq<byte>, sender: uint32): Msg {
    Msg(FILE_ERROR, sender, errorMessage + [NUL] + relatedPath)
  }

  // ---------------------------------------------------------------- reading

  function ServerRelativePath(m: Msg): seq<byte> {
    if m.kind != FILE_UPLOAD || m.body == [] then []
    else
      var first := FindNul(m.body, 0);
      if first == |m.body| then [] else m.body[..first]
  }

  function FileName(m: Msg): seq<byte> {
    if m.kind != FILE_UPLOAD || m.body == [] then []
    else
      var first := FindNul(m.body, 0);
      if first == |m.body| || first + 1 == |m.body| then []
      else m.body[first + 1..FindNul(m.body, first + 1)]
  }

  function FileContent(m: Msg): seq<byte> {
    if m.body == [] then []
    else
      var first := FindNul(m.body, 0);
      if m.kind == FILE_UPLOAD then
        if first == |m.body| || first + 1 == |m.body| then []
        else
          var second := FindNul(m.body, first + 1);
          if second == |m.body| || second + 1 == |m.body| then [] else m.body[second + 1..]
      else if m.kind == FILE_RESPONSE then
        if first == |m.body| || first + 1 == |m.body| then [] else m.body[first + 1..]
      else []
  }

  function RelativePath(m: Msg): seq<byte> {
    if m.kind != FILE_RESPONSE || m.body == [] then []
    else
      var first := FindNul(m.body, 0);
      if first == |m.body| then [] else m.body[..first]
  }

  function ErrorMessage(m: Msg): seq<byte> {
    if m.kind != FILE_ERROR || m.body == [] then []
    else m.body[..FindNul(m.body, 0)]
  }

  function RelatedPath(m: Msg): seq<byte> {
    if m.kind != FILE_ERROR || m.body == [] then []
    else
      var first := FindNul(m.body, 0);
      if first == |m.body| || first + 1 == |m.body| then [] else m.body[first + 1..]
  }

  // ---------------------------------------------------------------- layout

  /** The messages and the order of their fields, each but the last ended by a NUL. */
  lemma FileMessageLayout(a: seq<byte>, b: seq<byte>, content: seq<byte>, sender: uint32)
    ensures var m := CreateFileUpload(a, b, content, sender);
            && m.kind == 10 && m.clientId == sender && |m.body| == |a| + |b| + |content| + 2
            && m.body[..|a|] == a && m.body[|a|] == 0
            && m.body[|a| + 1..|a| + 1 + |b|] == b && m.body[|a| + |b| + 1] == 0
            && m.body[|a| + |b| + 2..] == content
    ensures var m := CreateFileResponse(a, content, sender);
            m.Some? ==>
              && m.value.kind == 12 && m.value.clientId == sender && |m.value.body| == |a| + 1 + |content|
              && m.value.body[..|a|] == a && m.value.body[|a|] == 0 && m.value.body[|a| + 1..] == content
    ensures var m := CreateFileError(a, b, sender);
            && m.kind == 13 && m.clientId == sender && |m.body| == |a| + 1 + |b|
            && m.body[..|a|] == a && m.body[|a|] == 0 && m.body[|a| + 1..] == b
  {
  }

  // ---------------------------------------------------------------- round trips

  /** The first NUL ends the first field exactly when that field has none. */
  lemma FirstField(field: seq<byte>, rest: seq<byte>)
    ensures var s := field + [NUL] + rest;
            && FindNul(s, 0) < |s|
            && (s[..FindNul(s, 0)] == field <==> NulFree(field))
            && (NulFree(field) ==> FindNul(s, 0) == |field| && s[|field| + 1..] == rest)
  {
    var s := field + [NUL] + rest;
    assert s[|field|] == NUL;
    assert forall j :: 0 <= j < |field| ==> s[j] == field[j];
  }

  lemma {:induction false} FindNulShift(before: seq<byte>, s: seq<byte>, from: nat)
    requires from <= |s|
    ensures FindNul(before + s, |before| + from) == |before| + FindNul(s, from)
    decreases |s| - from
  {
    if from < |s| && s[from] != NUL {
      FindNulShift(before, s, from + 1);
    }
  }

  /** An upload gives back its path, name and content exactly when path and name hold no NUL;
      the content may hold anything. */
  lemma UploadRoundTrip(path: seq<byte>, name: seq<byte>, content: seq<byte>, sender: uint32)
    ensures var m := CreateFileUpload(path, name, content, sender);
            ServerRelativePath(m) == path && FileName(m) == name && FileContent(m) == content
            <==> NulFree(path) && NulFree(name)
  {
    hide FindNul;
    var m := CreateFileUpload(path, name, content, sender);
    var rest := name + [NUL] + content;
    assert m.body == path + [NUL] + rest;
    FirstField(path, rest);
    if NulFree(path) {
      FirstField(name, content);
      FindNulShift(path + [NUL], rest, 0);
      var second := FindNul(m.body, |path| + 1);
      assert m.body[|path| + 1..second] == rest[..FindNul(rest, 0)];
      if NulFree(name) {
        assert m.body[second + 1..] == content;
      }
    }
  }

  /** A response that could be made gives back path and content exactly when the path holds
      no NUL. */
  lemma ResponseRoundTrip(path: seq<byte>, content: seq<byte>, sender: uint32)
    ensures var m := CreateFileResponse(path, content, sender);
            m.Some? ==> (RelativePath(m.value) == path && FileContent(m.value) == content <==> NulFree(path))
    ensures |path| < MAX_BODY_LENGTH ==>
              (CreateFileResponse(path, content, sender).Some? <==> |path| + 1 + |content| <= MAX_BODY_LENGTH)
  {
    FirstField(path, content);
  }

  lemma ErrorRoundTrip(message: seq<byte>, path: seq<byte>, sender: uint32)
    ensures var m := CreateFileError(message, path, sender);
            ErrorMessage(m) == message && RelatedPath(m) == path <==> NulFree(message)
  {
    FirstField(message, path);
  }
}
