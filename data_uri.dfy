/** The string helpers of the editor: JavaScript's split on one separator,
    the strip of a data-URI header before the image is sent to the remote
    service, and the shape of the data URL a file reader produces. */
module DataUri {

  /** `s.split(sep)` in JavaScript for a one-character separator: the fields
      between separators, in order, including empty ones. */
  function Split(s: string, sep: char): (parts: seq<string>)
    ensures |parts| >= 1
    ensures sep in s <==> |parts| >= 2
    ensures forall i :: 0 <= i < |parts| ==> sep !in parts[i]
    decreases |s|
  {
    if s == [] then [[]]
    else if s[0] == sep then [[]] + Split(s[1..], sep)
    else
      var rest := Split(s[1..], sep);
      assert sep in s <==> sep in s[1..] by {
        assert s == [s[0]] + s[1..];
      }
      [[s[0]] + rest[0]] + rest[1..]
  }

  /** `parts.join(sep)`: the inverse of Split. */
  function Join(parts: seq<string>, sep: char): string
  {
    if parts == [] then []
    else if |parts| == 1 then parts[0]
    else parts[0] + [sep] + Join(parts[1..], sep)
  }

  /** Consing a character onto the first field conses it onto the join. */
  lemma JoinConsField(c: char, parts: seq<string>, sep: char)
    requires |parts| >= 1
    ensures Join([[c] + parts[0]] + parts[1..], sep) == [c] + Join(parts, sep)
  {
  }

  /** Joining the fields of a split gives back the string. */
  lemma {:induction false} JoinSplit(s: string, sep: char)
    ensures Join(Split(s, sep), sep) == s
    decreases |s|
  {
    if s == [] {
    } else if s[0] == sep {
      var rest := Split(s[1..], sep);
      JoinSplit(s[1..], sep);
      assert ([[]] + rest)[1..] == rest;
      assert s == [sep] + s[1..];
    } else {
      var rest := Split(s[1..], sep);
      JoinSplit(s[1..], sep);
      JoinConsField(s[0], rest, sep);
      assert s == [s[0]] + s[1..];
    }
  }

  /** A field free of the separator, followed by the separator, is split off
      as the first field. */
  lemma {:induction false} SplitAfterField(p: string, t: string, sep: char)
    requires sep !in p
    ensures Split(p + [sep] + t, sep) == [p] + Split(t, sep)
    decreases |p|
  {
    if p == [] {
      assert p + [sep] + t == [sep] + t;
      assert ([sep] + t)[1..] == t;
    } else {
      var s := p + [sep] + t;
      assert s[0] == p[0] && s[1..] == p[1..] + [sep] + t;
      SplitAfterField(p[1..], t, sep);
      assert [p[0]] + p[1..] == p;
    }
  }

  /** A string without the separator splits into itself alone. */
  lemma {:induction false} SplitSingleField(p: string, sep: char)
    requires sep !in p
    ensures Split(p, sep) == [p]
    decreases |p|
  {
    if p != [] {
      SplitSingleField(p[1..], sep);
      assert [p[0]] + p[1..] == p;
    }
  }

  /** Splitting a join of separator-free fields gives back the fields. */
  lemma {:induction false} SplitJoin(parts: seq<string>, sep: char)
    requires |parts| >= 1
    requires forall i :: 0 <= i < |parts| ==> sep !in parts[i]
    ensures Split(Join(parts, sep), sep) == parts
  {
    if |parts| == 1 {
      SplitSingleField(parts[0], sep);
    } else {
      SplitJoin(parts[1..], sep);
      SplitAfterField(parts[0], Join(parts[1..], sep), sep);
      assert [parts[0]] + parts[1..] == parts;
    }
  }

  /** The payload sent to the remote service: `image.split(',')[1]` when the
      image holds a comma, the image itself otherwise. */
  function Base64Payload(image: string): (payload: string)
    ensures ',' !in payload
    ensures ',' !in image ==> payload == image
  {
    if ',' in image then Split(image, ',')[1] else image
  }

  /** The first field of a split is the text up to the first separator. */
  lemma FirstField(t: string, j: nat, sep: char)
    requires j <= |t| && sep !in t[..j]
    requires j < |t| ==> t[j] == sep
    ensures Split(t, sep)[0] == t[..j]
  {
    if j == |t| {
      assert t[..j] == t;
      SplitSingleField(t, sep);
    } else {
      assert t == t[..j] + [sep] + t[j + 1..];
      SplitAfterField(t[..j], t[j + 1..], sep);
    }
  }

  /** With i the first comma and j the next comma (or the end), the payload is
      exactly the text strictly between them. */
  lemma PayloadIsSecondField(image: string, i: nat, j: nat)
    requires i < j <= |image|
    requires image[i] == ',' && ',' !in image[..i]
    requires ',' !in image[i + 1..j]
    requires j < |image| ==> image[j] == ','
    ensures Base64Payload(image) == image[i + 1..j]
  {
    var head, tail := image[..i], image[i + 1..];
    assert image == head + [','] + tail;
    SplitAfterField(head, tail, ',');
    assert Split(image, ',')[1] == Split(tail, ',')[0];
    var k := j - (i + 1);
    assert tail[..k] == image[i + 1..j];
    FirstField(tail, k, ',');
  }

  /** The data URL `FileReader.readAsDataURL` produces for a file: a header
      naming the MIME type, then the base64 body after a comma. */
  function DataUrl(mimeType: string, base64: string): string
  {
    "data:" + mimeType + ";base64," + base64
  }

  /** Stripping the header of a file's data URL recovers its base64 body. */
  lemma PayloadOfDataUrl(mimeType: string, base64: string)
    requires ',' !in mimeType && ',' !in base64
    ensures DataUrl(mimeType, base64) != []
    ensures Base64Payload(DataUrl(mimeType, base64)) == base64
  {
    var url := DataUrl(mimeType, base64);
    var header := "data:" + mimeType + ";base64";
    assert url == header + [','] + base64;
    var i := |header|;
    assert url[..i] == header && url[i + 1..] == base64;
    assert ',' !in "data:" && ',' !in ";base64";
    assert ',' !in header;
    PayloadIsSecondField(url, i, |url|);
  }

  /** `s.startsWith(prefix)`. */
  predicate StartsWith(s: string, prefix: string)
  {
    |prefix| <= |s| && s[..|prefix|] == prefix
  }
}
