/**
  The Google Maps link importer: it turns a share link into a draft item by
  reading the `/place/<name>` segment of the link's path and the first
  `@<lat>,<lng>` pair of the link. No network call is involved.

  Parsing the link into a path and percent-decoding are done by the platform;
  here the path is an input (None when the link does not parse) and decoding is
  the parameter `decode` (None when the text is malformed).
 */
module GoogleMaps {
  import opened Wrappers
  import opened Seqs
  import opened Text
  import opened Types

  const PlaceMarker := "/place/"
  const DefaultTitle := "New Place"
  const ImportDescription := "Imported from Google Maps"

  /** The partial item the importer returns. */
  datatype PlaceDraft = PlaceDraft(
    title: string,
    url: string,
    location: string,
    description: string,
    tags: seq<Tag>)

  /** "/place/" followed by at least one character other than '/' starts at offset `i`. */
  predicate PlaceMatchAt(p: string, i: int) {
    && 0 <= i
    && i + |PlaceMarker| < |p|
    && p[i..i + |PlaceMarker|] == PlaceMarker
    && p[i + |PlaceMarker|] != '/'
  }

  /** The leftmost offset, from `from` on, where the place pattern matches. */
  function FirstPlaceMatch(p: string, from: nat): (r: Option<nat>)
    ensures r.Some? ==> from <= r.value && PlaceMatchAt(p, r.value)
    ensures r.Some? ==> forall j :: from <= j < r.value ==> !PlaceMatchAt(p, j)
    ensures r.None? ==> forall j :: from <= j ==> !PlaceMatchAt(p, j)
    decreases |p| - from
  {
    if from >= |p| then None
    else if PlaceMatchAt(p, from) then Some(from)
    else FirstPlaceMatch(p, from + 1)
  }

  /** The end of the run of characters other than '/' that starts at `j`. */
  function SegmentEnd(p: string, j: nat): (e: nat)
    requires j <= |p|
    ensures j <= e <= |p|
    ensures forall k :: j <= k < e ==> p[k] != '/'
    ensures e == |p| || p[e] == '/'
    decreases |p| - j
  {
    if j == |p| || p[j] == '/' then j else SegmentEnd(p, j + 1)
  }

  /** The still-encoded place name: the segment after the first "/place/" that is followed by one. */
  function PlaceSegment(pathname: string): (r: Option<string>)
    ensures r.Some? ==> r.value != [] && forall k :: 0 <= k < |r.value| ==> r.value[k] != '/'
  {
    if !Contains(pathname, PlaceMarker) then None
    else match FirstPlaceMatch(pathname, 0)
      case None => None
      case Some(i) => Some(pathname[i + |PlaceMarker|..SegmentEnd(pathname, i + |PlaceMarker|)])
  }

  /** No place match starts at `j` when the window there lies inside `head`, which has no match at `j`. */
  lemma NoMatchAt(head: string, p: string, j: nat)
    requires IsPrefix(head, p) && j + |PlaceMarker| <= |head|
    requires !OccursAt(head, PlaceMarker, j)
    ensures !PlaceMatchAt(p, j)
  {
    forall k | j <= k < j + |PlaceMarker|
      ensures p[k] == head[k]
    {
      assert head[k] == p[..|head|][k];
    }
    assert p[j..j + |PlaceMarker|] == head[j..j + |PlaceMarker|];
  }

  /** No place match starts inside a prefix that holds no "/place/" even with "/place" appended. */
  lemma NoMatchInPrefix(pre: string, p: string)
    requires !Contains(pre + "/place", PlaceMarker)
    requires IsPrefix(pre + "/place", p)
    ensures forall j :: 0 <= j < |pre| ==> !PlaceMatchAt(p, j)
  {
    var head := pre + "/place";
    ContainsAt(head, PlaceMarker);
    forall j | 0 <= j < |pre|
      ensures !PlaceMatchAt(p, j)
    {
      NoMatchAt(head, p, j);
    }
  }

  /** The slash-free run after the marker ends where `name` ends. */
  lemma SegmentEndOfName(p: string, start: nat, name: string, rest: string)
    requires start <= |p| && p == p[..start] + name + rest
    requires forall k :: 0 <= k < |name| ==> name[k] != '/'
    requires rest == [] || rest[0] == '/'
    ensures SegmentEnd(p, start) == start + |name|
    ensures p[start..start + |name|] == name
  {
    forall k | start <= k < start + |name|
      ensures p[k] != '/'
    {
      assert p[k] == name[k - start];
    }
    if start + |name| < |p| {
      assert p[start + |name|] == rest[0];
    }
  }

  /** A segment placed after a prefix with no earlier "/place/" is read back unchanged. */
  lemma PlaceSegmentRoundTrip(pre: string, name: string, rest: string)
    requires !Contains(pre + "/place", PlaceMarker)
    requires name != [] && forall k :: 0 <= k < |name| ==> name[k] != '/'
    requires rest == [] || rest[0] == '/'
    ensures PlaceSegment(pre + PlaceMarker + name + rest) == Some(name)
  {
    var p := pre + PlaceMarker + name + rest;
    var i := |pre|;
    var start := i + |PlaceMarker|;
    assert p[..start] == pre + PlaceMarker;
    assert p[i..start] == PlaceMarker;
    assert p[start] == name[0];
    assert PlaceMatchAt(p, i);
    ContainsAt(p, PlaceMarker);
    assert OccursAt(p, PlaceMarker, i);
    assert p[..i + 6] == pre + "/place";
    NoMatchInPrefix(pre, p);
    assert FirstPlaceMatch(p, 0) == Some(i);
    assert p == p[..start] + name + rest;
    SegmentEndOfName(p, start, name, rest);
  }

  /** The decoded name with every '+' turned into a space. */
  function SpacesForPluses(s: string): (r: string)
    ensures |r| == |s|
    ensures forall i :: 0 <= i < |r| ==> r[i] != '+'
    ensures forall i :: 0 <= i < |s| && s[i] != '+' ==> r[i] == s[i]
    ensures forall i :: 0 <= i < |s| && s[i] == '+' ==> r[i] == ' '
  {
    seq(|s|, i requires 0 <= i < |s| => if s[i] == '+' then ' ' else s[i])
  }

  /** The end of the run of decimal digits that starts at `j`. */
  function DigitsEnd(s: string, j: nat): (e: nat)
    requires j <= |s|
    ensures j <= e <= |s|
    ensures e == |s| || !IsDigit(s[e])
    decreases |s| - j
  {
    if j < |s| && IsDigit(s[j]) then DigitsEnd(s, j + 1) else j
  }

  /** Everything `DigitsEnd` passes over is a digit. */
  lemma {:induction false} DigitsEndAllDigits(s: string, j: nat)
    requires j <= |s|
    ensures forall k :: j <= k < DigitsEnd(s, j) ==> IsDigit(s[k])
    decreases |s| - j
  {
    if j < |s| && IsDigit(s[j]) {
      DigitsEndAllDigits(s, j + 1);
    }
  }

  /** Digits, a '.' at offset `k`, digits, with at least one digit on each side. */
  predicate DecimalWithPointAt(d: string, k: int) {
    && 0 < k < |d| - 1
    && d[k] == '.'
    && AllDigits(d[..k])
    && AllDigits(d[k + 1..])
  }

  predicate IsUnsignedDecimal(d: string) {
    exists k :: 0 < k < |d| - 1 && DecimalWithPointAt(d, k)
  }

  /** A coordinate as the link writes it: an optional '-' and an unsigned decimal. */
  predicate IsDecimal(x: string) {
    || IsUnsignedDecimal(x)
    || (|x| > 0 && x[0] == '-' && IsUnsignedDecimal(x[1..]))
  }

  /** Two runs of digits around the '.' at `p` make `s[j..e]` an unsigned decimal. */
  lemma PointSplit(s: string, j: nat, p: nat, e: nat)
    requires j < p && p + 1 < e <= |s| && s[p] == '.'
    requires forall k :: j <= k < p ==> IsDigit(s[k])
    requires forall k :: p < k < e ==> IsDigit(s[k])
    ensures DecimalWithPointAt(s[j..e], p - j)
  {
    var d := s[j..e];
    var whole := d[..p - j];
    forall m | 0 <= m < |whole|
      ensures IsDigit(whole[m])
    {
      assert whole[m] == s[j + m];
    }
    var fraction := d[p - j + 1..];
    forall m | 0 <= m < |fraction|
      ensures IsDigit(fraction[m])
    {
      assert fraction[m] == s[p + 1 + m];
    }
  }

  /** The end of an unsigned decimal starting at `j`, each run of digits taken as long as it goes. */
  function UnsignedEnd(s: string, j: nat): (r: Option<nat>)
    requires j <= |s|
    ensures r.Some? ==> j < r.value <= |s|
    ensures r.Some? ==> r.value == |s| || !IsDigit(s[r.value])
  {
    var intEnd := DigitsEnd(s, j);
    if j < intEnd < |s| && s[intEnd] == '.' then
      var fracEnd := DigitsEnd(s, intEnd + 1);
      if intEnd + 1 < fracEnd then Some(fracEnd) else None
    else None
  }

  /** What `UnsignedEnd` reads is an unsigned decimal. */
  lemma UnsignedEndIsDecimal(s: string, j: nat)
    requires j <= |s| && UnsignedEnd(s, j).Some?
    ensures IsUnsignedDecimal(s[j..UnsignedEnd(s, j).value])
  {
    var intEnd := DigitsEnd(s, j);
    DigitsEndAllDigits(s, j);
    DigitsEndAllDigits(s, intEnd + 1);
    PointSplit(s, j, intEnd, DigitsEnd(s, intEnd + 1));
  }

  /**
    The end of the coordinate that starts at `j`. Greedy digit runs are the
    only way the pattern can match there, since a '.' must follow the first run.
   */
  function NumberEnd(s: string, j: nat): (r: Option<nat>)
    requires j <= |s|
    ensures r.Some? ==> j < r.value <= |s|
    ensures r.Some? ==> r.value == |s| || !IsDigit(s[r.value])
  {
    if j < |s| && s[j] == '-' then UnsignedEnd(s, j + 1)
    else UnsignedEnd(s, j)
  }

  /** What `NumberEnd` reads is a coordinate. */
  lemma NumberEndIsDecimal(s: string, j: nat)
    requires j <= |s| && NumberEnd(s, j).Some?
    ensures IsDecimal(s[j..NumberEnd(s, j).value])
  {
    var e := NumberEnd(s, j).value;
    if j < |s| && s[j] == '-' {
      UnsignedEndIsDecimal(s, j + 1);
      assert s[j..e][1..] == s[j + 1..e];
    } else {
      UnsignedEndIsDecimal(s, j);
    }
  }

  /**
    The ends of the coordinate pair when '@', a coordinate, ',' and a
    coordinate start at offset `i`: the offset of the ',' and the end of the second.
   */
  function CoordsAt(s: string, i: nat): (r: Option<(nat, nat)>)
    requires i <= |s|
    ensures r.Some? ==> i < |s| && s[i] == '@'
    ensures r.Some? ==> i + 1 < r.value.0 < r.value.1 <= |s| && s[r.value.0] == ','
  {
    if i < |s| && s[i] == '@' then
      match NumberEnd(s, i + 1)
      case None => None
      case Some(e1) =>
        if e1 < |s| && s[e1] == ',' then
          match NumberEnd(s, e1 + 1)
          case None => None
          case Some(e2) => Some((e1, e2))
        else None
    else None
  }

  /** Both coordinates read at `i` are well formed. */
  lemma CoordsAtIsDecimal(s: string, i: nat)
    requires i <= |s| && CoordsAt(s, i).Some?
    ensures var (e1, e2) := CoordsAt(s, i).value;
      IsDecimal(s[i + 1..e1]) && IsDecimal(s[e1 + 1..e2])
  {
    var e1 := NumberEnd(s, i + 1).value;
    NumberEndIsDecimal(s, i + 1);
    NumberEndIsDecimal(s, e1 + 1);
  }

  /** The leftmost offset, from `from` on, where the coordinate pattern matches. */
  function FirstCoordsMatch(s: string, from: nat): (r: Option<nat>)
    requires from <= |s|
    ensures r.Some? ==> from <= r.value <= |s| && CoordsAt(s, r.value).Some?
    ensures r.Some? ==> forall j :: from <= j < r.value ==> CoordsAt(s, j).None?
    ensures r.None? ==> forall j :: from <= j <= |s| ==> CoordsAt(s, j).None?
    decreases |s| - from
  {
    if CoordsAt(s, from).Some? then Some(from)
    else if from == |s| then None
    else FirstCoordsMatch(s, from + 1)
  }

  /** "lat, lng" from the first coordinate match in the link, or "" when there is none. */
  function Location(url: string): string {
    match FirstCoordsMatch(url, 0)
    case None => ""
    case Some(i) =>
      var (e1, e2) := CoordsAt(url, i).value;
      url[i + 1..e1] + ", " + url[e1 + 1..e2]
  }

  /** A coordinate match always yields a non-empty "lat, lng". */
  lemma LocationOfMatch(url: string)
    requires FirstCoordsMatch(url, 0).Some?
    ensures Location(url) != ""
  {
    var i := FirstCoordsMatch(url, 0).value;
    var e := CoordsAt(url, i).value;
    assert Location(url)[|url[i + 1..e.0]|] == ',';
  }

  /** The location is empty exactly when the coordinate pattern matches at no offset. */
  lemma LocationEmptyIffNoPair(url: string)
    ensures Location(url) == "" <==> forall j :: 0 <= j <= |url| ==> CoordsAt(url, j).None?
  {
    var m := FirstCoordsMatch(url, 0);
    if m.Some? {
      LocationOfMatch(url);
      assert CoordsAt(url, m.value).Some?;
    }
  }

  /** A run of digits followed by a non-digit (or the end) is measured exactly. */
  lemma {:induction false} DigitsEndOf(s: string, j: nat, n: nat)
    requires j + n <= |s|
    requires forall k :: j <= k < j + n ==> IsDigit(s[k])
    requires j + n == |s| || !IsDigit(s[j + n])
    ensures DigitsEnd(s, j) == j + n
    decreases n
  {
    if n > 0 {
      DigitsEndOf(s, j + 1, n - 1);
    }
  }

  /** An unsigned decimal followed by a non-digit is read as exactly that decimal. */
  lemma UnsignedEndOf(s: string, j: nat, d: string, k: nat)
    requires j + |d| <= |s| && s[j..j + |d|] == d && DecimalWithPointAt(d, k)
    requires j + |d| == |s| || !IsDigit(s[j + |d|])
    ensures UnsignedEnd(s, j) == Some(j + |d|)
  {
    forall m | j <= m < j + k
      ensures IsDigit(s[m])
    {
      assert s[m] == d[..k][m - j];
    }
    DigitsEndOf(s, j, k);
    assert s[j + k] == d[k];
    forall m | j + k + 1 <= m < j + |d|
      ensures IsDigit(s[m])
    {
      assert s[m] == d[k + 1..][m - j - k - 1];
    }
    DigitsEndOf(s, j + k + 1, |d| - k - 1);
  }

  /** A well-formed coordinate followed by a non-digit is read as exactly that coordinate. */
  lemma NumberEndOf(s: string, j: nat, x: string)
    requires IsDecimal(x) && j + |x| <= |s| && s[j..j + |x|] == x
    requires j + |x| == |s| || !IsDigit(s[j + |x|])
    ensures NumberEnd(s, j) == Some(j + |x|)
  {
    if IsUnsignedDecimal(x) {
      var k :| 0 < k < |x| - 1 && DecimalWithPointAt(x, k);
      assert s[j] == x[..k][0];
      UnsignedEndOf(s, j, x, k);
    } else {
      var d := x[1..];
      var k :| 0 < k < |d| - 1 && DecimalWithPointAt(d, k);
      assert s[j] == x[0];
      assert s[j + 1..j + 1 + |d|] == d;
      UnsignedEndOf(s, j + 1, d, k);
    }
  }

  /** The pair read at `i` once both coordinate ends are known. */
  lemma CoordsAtEnds(s: string, i: nat, e1: nat, e2: nat)
    requires i < e1 < e2 <= |s| && s[i] == '@' && s[e1] == ','
    requires NumberEnd(s, i + 1) == Some(e1)
    requires NumberEnd(s, e1 + 1) == Some(e2)
    ensures CoordsAt(s, i) == Some((e1, e2))
  {
  }

  /**
    The link pattern `@(-?\d+\.\d+),(-?\d+\.\d+)` matched at `i`, stated on its own:
    '@', a coordinate up to the ',' at `e1`, and a coordinate ending at `e2`.
   */
  predicate PairFrom(s: string, i: nat, e1: nat, e2: nat) {
    && i + 1 < e1 < e2 <= |s|
    && s[i] == '@' && s[e1] == ','
    && IsDecimal(s[i + 1..e1]) && IsDecimal(s[e1 + 1..e2])
  }

  /** The link pattern has a match starting at offset `i`. */
  ghost predicate PatternAt(s: string, i: nat) {
    exists e1: nat, e2: nat :: PairFrom(s, i, e1, e2)
  }

  /** Digits after an unsigned decimal lengthen its fraction. */
  lemma UnsignedDecimalExtends(s: string, j: nat, e: nat, f: nat)
    requires j <= e <= f <= |s| && IsUnsignedDecimal(s[j..e])
    requires forall m :: e <= m < f ==> IsDigit(s[m])
    ensures IsUnsignedDecimal(s[j..f])
  {
    var d := s[j..e];
    var k :| 0 < k < |d| - 1 && DecimalWithPointAt(d, k);
    var longer := s[j..f];
    assert longer[..k] == d[..k];
    assert longer[k] == d[k];
    var fraction := longer[k + 1..];
    forall m | 0 <= m < |fraction|
      ensures IsDigit(fraction[m])
    {
      if j + k + 1 + m < e {
        assert fraction[m] == d[k + 1..][m];
      } else {
        assert fraction[m] == s[j + k + 1 + m];
      }
    }
    assert DecimalWithPointAt(longer, k);
  }

  /** Digits after a coordinate lengthen its fraction. */
  lemma DecimalExtends(s: string, j: nat, e: nat, f: nat)
    requires j <= e <= f <= |s| && IsDecimal(s[j..e])
    requires forall m :: e <= m < f ==> IsDigit(s[m])
    ensures IsDecimal(s[j..f])
  {
    if IsUnsignedDecimal(s[j..e]) {
      UnsignedDecimalExtends(s, j, e, f);
    } else {
      assert s[j..e][1..] == s[j + 1..e];
      UnsignedDecimalExtends(s, j + 1, e, f);
      assert s[j..f][1..] == s[j + 1..f];
    }
  }

  /**
    Wherever the pattern matches, the scanner reads a pair there: the first
    coordinate up to the same ',', the second one as far as its digits go
    (the greedy `\d+` at the end of the pattern).
   */
  lemma CoordsAtComplete(s: string, i: nat, e1: nat, e2: nat)
    requires PairFrom(s, i, e1, e2)
    ensures CoordsAt(s, i) == Some((e1, DigitsEnd(s, e2)))
  {
    NumberEndOf(s, i + 1, s[i + 1..e1]);
    var f := DigitsEnd(s, e2);
    DigitsEndAllDigits(s, e2);
    DecimalExtends(s, e1 + 1, e2, f);
    NumberEndOf(s, e1 + 1, s[e1 + 1..f]);
    CoordsAtEnds(s, i, e1, f);
  }

  /** The scanner reads a pair at `i` exactly when the link pattern matches there. */
  lemma CoordsAtIffPattern(s: string, i: nat)
    requires i <= |s|
    ensures CoordsAt(s, i).Some? <==> PatternAt(s, i)
  {
    if CoordsAt(s, i).Some? {
      var (e1, e2) := CoordsAt(s, i).value;
      CoordsAtIsDecimal(s, i);
      assert PairFrom(s, i, e1, e2);
    }
    if PatternAt(s, i) {
      var e1: nat, e2: nat :| PairFrom(s, i, e1, e2);
      CoordsAtComplete(s, i, e1, e2);
    }
  }

  /**
    The location is the leftmost match of the link pattern: its first group,
    ", ", and its second group taken as far as its digits go.
   */
  lemma LocationOfFirstMatch(s: string, i: nat, e1: nat, e2: nat)
    requires PairFrom(s, i, e1, e2)
    requires forall j :: 0 <= j < i ==> !PatternAt(s, j)
    ensures Location(s) == s[i + 1..e1] + ", " + s[e1 + 1..DigitsEnd(s, e2)]
  {
    forall j | 0 <= j < i
      ensures CoordsAt(s, j).None?
    {
      CoordsAtIffPattern(s, j);
    }
    CoordsAtComplete(s, i, e1, e2);
    LocationAt(s, i);
  }

  /** The location is empty exactly when the link pattern matches nowhere in the link. */
  lemma LocationEmptyIffNoMatch(url: string)
    ensures Location(url) == "" <==> forall j :: 0 <= j <= |url| ==> !PatternAt(url, j)
  {
    forall j | 0 <= j <= |url|
      ensures CoordsAt(url, j).None? <==> !PatternAt(url, j)
    {
      CoordsAtIffPattern(url, j);
    }
    LocationEmptyIffNoPair(url);
  }

  /** The location is the pair read at the leftmost offset where one can be read. */
  lemma LocationAt(s: string, i: nat)
    requires i <= |s| && CoordsAt(s, i).Some?
    requires forall j :: 0 <= j < i ==> CoordsAt(s, j).None?
    ensures var (e1, e2) := CoordsAt(s, i).value;
      Location(s) == s[i + 1..e1] + ", " + s[e1 + 1..e2]
  {
    FirstCoordsMatchAt(s, i);
  }

  /** The leftmost match is the offset that matches with no match before it. */
  lemma FirstCoordsMatchAt(s: string, i: nat)
    requires i <= |s| && CoordsAt(s, i).Some?
    requires forall j :: 0 <= j < i ==> CoordsAt(s, j).None?
    ensures FirstCoordsMatch(s, 0) == Some(i)
  {
    var m := FirstCoordsMatch(s, 0);
    assert m.Some?;
    assert !(m.value < i);
    assert !(i < m.value);
  }

  /** No pair can be read at an offset that does not hold '@'. */
  lemma NoCoordsBefore(s: string, i: nat)
    requires i <= |s|
    requires forall j :: 0 <= j < i ==> s[j] != '@'
    ensures forall j :: 0 <= j < i ==> CoordsAt(s, j).None?
  {
  }

  /** The location of a link whose first '@' starts a pair with the given ends. */
  lemma LocationFromEnds(s: string, i: nat, e1: nat, e2: nat)
    requires i < e1 < e2 <= |s| && s[i] == '@' && s[e1] == ','
    requires NumberEnd(s, i + 1) == Some(e1)
    requires NumberEnd(s, e1 + 1) == Some(e2)
    requires forall j :: 0 <= j < i ==> s[j] != '@'
    ensures Location(s) == s[i + 1..e1] + ", " + s[e1 + 1..e2]
  {
    CoordsAtEnds(s, i, e1, e2);
    NoCoordsBefore(s, i);
    LocationAt(s, i);
  }

  /** Both coordinates of a well-formed pair after the '@' at `i` are read to their ends. */
  lemma PairEnds(s: string, i: nat, lat: string, lng: string)
    requires IsDecimal(lat) && IsDecimal(lng)
    requires i + 2 + |lat| + |lng| <= |s| && s[i + 1 + |lat|] == ','
    requires s[i + 1..i + 1 + |lat|] == lat
    requires s[i + 2 + |lat|..i + 2 + |lat| + |lng|] == lng
    requires i + 2 + |lat| + |lng| == |s| || !IsDigit(s[i + 2 + |lat| + |lng|])
    ensures NumberEnd(s, i + 1) == Some(i + 1 + |lat|)
    ensures NumberEnd(s, i + 2 + |lat|) == Some(i + 2 + |lat| + |lng|)
  {
    NumberEndOf(s, i + 1, lat);
    NumberEndOf(s, i + 2 + |lat|, lng);
  }

  /** A link laid out as '@', a coordinate, ',' and a coordinate after an '@'-free prefix. */
  lemma LocationOfLayout(s: string, i: nat, lat: string, lng: string)
    requires IsDecimal(lat) && IsDecimal(lng)
    requires i + 2 + |lat| + |lng| <= |s| && s[i] == '@' && s[i + 1 + |lat|] == ','
    requires s[i + 1..i + 1 + |lat|] == lat
    requires s[i + 2 + |lat|..i + 2 + |lat| + |lng|] == lng
    requires i + 2 + |lat| + |lng| == |s| || !IsDigit(s[i + 2 + |lat| + |lng|])
    requires forall j :: 0 <= j < i ==> s[j] != '@'
    ensures Location(s) == lat + ", " + lng
  {
    PairEnds(s, i, lat, lng);
    LocationFromEnds(s, i, i + 1 + |lat|, i + 2 + |lat| + |lng|);
  }

  /** A link whose first '@' introduces "lat,lng" yields the location "lat, lng". */
  lemma LocationRoundTrip(pre: string, lat: string, lng: string, post: string)
    requires forall k :: 0 <= k < |pre| ==> pre[k] != '@'
    requires IsDecimal(lat) && IsDecimal(lng)
    requires post == [] || !IsDigit(post[0])
    ensures Location(pre + "@" + lat + "," + lng + post) == lat + ", " + lng
  {
    var s := pre + "@" + lat + "," + lng + post;
    var i := |pre|;
    var e1 := i + 1 + |lat|;
    var e2 := e1 + 1 + |lng|;
    assert s == (pre + "@") + lat + ("," + lng + post);
    SliceMiddle(pre + "@", lat, "," + lng + post);
    assert s == (pre + "@" + lat + ",") + lng + post;
    SliceMiddle(pre + "@" + lat + ",", lng, post);
    assert s[i] == '@';
    assert s[e1] == ',';
    assert e2 < |s| ==> s[e2] == post[0];
    forall j | 0 <= j < i
      ensures s[j] != '@'
    {
      assert s[j] == pre[j];
    }
    LocationOfLayout(s, i, lat, lng);
  }

  /**
    The draft item for a Google Maps link, or None when the link does not parse
    or its place name is malformed for decoding (both caught and reported as null).
   */
  function ExtractPlace(url: string, pathname: Option<string>, decode: string -> Option<string>)
    : (r: Option<PlaceDraft>)
    ensures r.None? <==>
      || pathname.None?
      || (PlaceSegment(pathname.value).Some? && decode(PlaceSegment(pathname.value).value).None?)
    ensures r.Some? ==>
      && r.value.url == url
      && r.value.location == Location(url)
      && r.value.description == ImportDescription
      && r.value.tags == []
      && r.value.title != ""
      && forall k :: 0 <= k < |r.value.title| ==> r.value.title[k] != '+'
    ensures r.Some? && PlaceSegment(pathname.value).None? ==> r.value.title == DefaultTitle
    ensures r.Some? && PlaceSegment(pathname.value).Some? ==>
      var name := SpacesForPluses(decode(PlaceSegment(pathname.value).value).value);
      r.value.title == if name == "" then DefaultTitle else name
  {
    match pathname
    case None => None
    case Some(path) =>
      var segment := PlaceSegment(path);
      if segment.Some? && decode(segment.value).None? then None
      else
        var placeName := if segment.Some? then SpacesForPluses(decode(segment.value).value) else "";
        Some(PlaceDraft(
          if placeName == "" then DefaultTitle else placeName,
          url,
          Location(url),
          ImportDescription,
          []))
  }

  /**
    A parsable link with neither a place segment nor an '@' gives the title
    "New Place", no tags and an empty location.
   */
  lemma PlainLinkGivesDefaults(url: string, pathname: string, decode: string -> Option<string>)
    requires !Contains(pathname, PlaceMarker)
    requires forall k :: 0 <= k < |url| ==> url[k] != '@'
    ensures var r := ExtractPlace(url, Some(pathname), decode);
      r.Some? && r.value.title == DefaultTitle && r.value.tags == [] && r.value.location == ""
  {
    var m := FirstCoordsMatch(url, 0);
    if m.Some? {
      assert false;
    }
  }
}
