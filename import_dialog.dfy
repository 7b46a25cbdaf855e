/** The column-mapping dialog shown before an import
    (src/components/ImportDialog.tsx): the headers are read from the file,
    each role is auto-detected as the first header matching its pattern,
    the user may change any role, and the mapping is submitted only with
    both latitude and longitude chosen. For a file with no non-blank row
    (an empty or whitespace-only file) the source means to fall back to
    invented names `col_1` … `col_n`, but its fallback throws a TypeError in
    the parse callback and the dialog keeps the previous file's headers and
    mapping: `LoadFileAsWritten` models that, `LoadFile` the intended
    loading. Both editors mount a fresh dialog for every file, so there the
    only observable effect is the TypeError; the kept state shows only in a
    dialog that stays mounted across files.
    Reading the file's first row is left to the parser library; it arrives
    here as the header list and the length of the first row. */
module ImportDialog {
  import opened Types
  import opened Strings
  import opened CsvHelpers

  /** `/heading/i` */
  predicate IsHeadingHeader(h: string) {
    Contains(Lower(h), "heading")
  }

  /** `/gimbal.*pitch/i`: "gimbal" somewhere, and "pitch" later on the same
      line, since `.*` does not cross a line terminator. */
  predicate IsGimbalPitchHeader(h: string) {
    var s := Lower(h);
    exists i, j | 0 <= i <= j <= |s| ::
      && OccursAt(s, "gimbal", i) && i + 6 <= j && OccursAt(s, "pitch", j)
      && forall k :: i + 6 <= k < j ==> !IsLineTerminator(s[k])
  }

  /** The words may be apart on one line... */
  lemma GimbalPitchSpaced()
    ensures IsGimbalPitchHeader("Gimbal Pitch")
  {
    var s := Lower("Gimbal Pitch");
    assert s == "gimbal pitch";
    assert OccursAt(s, "gimbal", 0) && OccursAt(s, "pitch", 7);
    assert forall k :: 6 <= k < 7 ==> !IsLineTerminator(s[k]);
  }

  /** ...but not on different lines. */
  lemma GimbalPitchLineBreak()
    ensures !IsGimbalPitchHeader("Gimbal\nPitch")
  {
    var t := Lower("Gimbal\nPitch");
    assert t == "gimbal\npitch";
    forall i, j | 0 <= i <= j <= |t| && OccursAt(t, "gimbal", i) && i + 6 <= j && OccursAt(t, "pitch", j)
      ensures exists k :: i + 6 <= k < j && IsLineTerminator(t[k])
    {
      assert t[i] == t[i..i + 6][0] == 'g' && t[j] == t[j..j + 5][0] == 'p';
      assert i <= 2 && 6 <= j <= 8;
      assert t[1] == 'i' && t[2] == 'm' && t[6] == '\n' && t[8] == 'i';
      assert IsLineTerminator(t[6]);
    }
  }

  /** The first header satisfying `matches`. */
  function FirstMatching(headers: seq<string>, matches: string -> bool): (r: Option<string>)
    ensures r.None? <==> forall i :: 0 <= i < |headers| ==> !matches(headers[i])
    ensures r.Some? ==> exists i :: 0 <= i < |headers| && headers[i] == r.value && matches(headers[i])
                                    && forall j :: 0 <= j < i ==> !matches(headers[j])
    decreases |headers|
  {
    if headers == [] then None
    else if matches(headers[0]) then Some(headers[0])
    else
      var r := FirstMatching(headers[1..], matches);
      if r.Some? then
        var i :| 0 <= i < |headers[1..]| && headers[1..][i] == r.value && matches(headers[1..][i])
                 && forall j :: 0 <= j < i ==> !matches(headers[1..][j]);
        assert headers[i + 1] == r.value;
        r
      else r
  }

  /** Scanning one more header changes the first match only when there was none. */
  lemma {:induction false} FirstMatchingSnoc(headers: seq<string>, h: string, matches: string -> bool)
    ensures FirstMatching(headers + [h], matches) ==
      (if FirstMatching(headers, matches).Some? then FirstMatching(headers, matches)
       else if matches(h) then Some(h) else None)
    decreases |headers|
  {
    if headers != [] {
      assert (headers + [h])[1..] == headers[1..] + [h];
      FirstMatchingSnoc(headers[1..], h, matches);
    }
  }

  /** The mapping auto-detection proposes: each role takes the first header
      matching its pattern. */
  function Detected(headers: seq<string>): (m: Mapping)
    ensures m.lat.Some? ==> m.lat.value in headers && IsLatHeader(m.lat.value)
    ensures m.lon.Some? ==> m.lon.value in headers && IsLonHeader(m.lon.value)
    ensures m.alt.Some? ==> m.alt.value in headers && IsAltHeader(m.alt.value)
    ensures m.heading.Some? ==> m.heading.value in headers && IsHeadingHeader(m.heading.value)
    ensures m.gimbalPitch.Some? ==> m.gimbalPitch.value in headers && IsGimbalPitchHeader(m.gimbalPitch.value)
  {
    Mapping(FirstMatching(headers, IsLatHeader), FirstMatching(headers, IsLonHeader),
            FirstMatching(headers, IsAltHeader), FirstMatching(headers, IsHeadingHeader),
            FirstMatching(headers, IsGimbalPitchHeader))
  }

  /** No pattern matches the empty header, so a detected column is always
      truthy. */
  lemma PatternsNeedText()
    ensures !IsLatHeader("") && !IsLonHeader("") && !IsAltHeader("")
    ensures !IsHeadingHeader("") && !IsGimbalPitchHeader("")
  {
    assert Lower("") == "";
    assert !OccursAt("", "heading", 0);
  }

  /** One role's step of the detection loop: take the header when the role
      is still unset (JavaScript falsy) and the header matches. */
  function Take(auto: Option<string>, h: string, matches: string -> bool): Option<string> {
    if !Truthy(auto) && matches(h) then Some(h) else auto
  }

  /** One step of the detection loop keeps a role equal to the first match
      among the headers scanned so far. */
  lemma TakeStep(headers: seq<string>, k: nat, cur: Option<string>, matches: string -> bool)
    requires k < |headers| && !matches("") && cur == FirstMatching(headers[..k], matches)
    ensures Take(cur, headers[k], matches) == FirstMatching(headers[..k + 1], matches)
  {
    assert headers[..k + 1] == headers[..k] + [headers[k]];
    FirstMatchingSnoc(headers[..k], headers[k], matches);
  }

  /** `autoDetectColumns` */
  method AutoDetectColumns(headers: seq<string>) returns (m: Mapping)
    ensures m == Detected(headers)
  {
    var lat, lon, alt, heading, gimbal := None, None, None, None, None;
    PatternsNeedText();
    for k := 0 to |headers|
      invariant lat == FirstMatching(headers[..k], IsLatHeader)
      invariant lon == FirstMatching(headers[..k], IsLonHeader)
      invariant alt == FirstMatching(headers[..k], IsAltHeader)
      invariant heading == FirstMatching(headers[..k], IsHeadingHeader)
      invariant gimbal == FirstMatching(headers[..k], IsGimbalPitchHeader)
    {
      var h := headers[k];
      TakeStep(headers, k, lon, IsLonHeader);
      TakeStep(headers, k, lat, IsLatHeader);
      TakeStep(headers, k, alt, IsAltHeader);
      TakeStep(headers, k, heading, IsHeadingHeader);
      TakeStep(headers, k, gimbal, IsGimbalPitchHeader);
      lon := Take(lon, h, IsLonHeader);
      lat := Take(lat, h, IsLatHeader);
      alt := Take(alt, h, IsAltHeader);
      heading := Take(heading, h, IsHeadingHeader);
      gimbal := Take(gimbal, h, IsGimbalPitchHeader);
    }
    assert headers[..|headers|] == headers;
    m := Mapping(lat, lon, alt, heading, gimbal);
  }

  /** The invented header names `col_1` … `col_n` for a file whose
      header list is empty. */
  function FallbackHeaders(n: nat): (hs: seq<string>)
    ensures |hs| == n
    ensures forall i :: 0 <= i < n ==> hs[i] == "col_" + NatText(i + 1)
  {
    seq(n, i requires 0 <= i < n => "col_" + NatText(i + 1))
  }

  /** The invented names are all different. */
  lemma FallbackHeadersDistinct(n: nat, i: nat, j: nat)
    requires i < j < n
    ensures FallbackHeaders(n)[i] != FallbackHeaders(n)[j]
  {
    var hs := FallbackHeaders(n);
    if hs[i] == hs[j] {
      assert hs[i][4..] == NatText(i + 1);
      assert hs[j][4..] == NatText(j + 1);
      NatTextInjective(i + 1, j + 1);
    }
  }

  /** The headers the dialog is meant to offer: the file's own, or when it
      has none as many invented names as the first row has cells (none when
      there is no first row). */
  function DialogHeaders(fields: seq<string>, firstRow: Option<nat>): (hs: seq<string>)
    ensures |fields| > 0 ==> hs == fields
    ensures |fields| == 0 ==> hs == FallbackHeaders(if firstRow.Some? then firstRow.value else 0)
  {
    if |fields| > 0 then fields
    else FallbackHeaders(if firstRow.Some? then firstRow.value else 0)
  }

  /** An invented name starts with 'c', which no coordinate pattern allows,
      so a file without headers gets no coordinate columns proposed. */
  lemma FallbackDetectsNoCoordinates(n: nat)
    ensures Detected(FallbackHeaders(n)).lat.None?
    ensures Detected(FallbackHeaders(n)).lon.None?
    ensures Detected(FallbackHeaders(n)).alt.None?
  {
    var hs := FallbackHeaders(n);
    forall i | 0 <= i < n
      ensures !IsLatHeader(hs[i]) && !IsLonHeader(hs[i]) && !IsAltHeader(hs[i])
    {
      StartsWithCNoCoordinate(hs[i]);
    }
  }

  /** A header starting with `c` names no coordinate. */
  lemma StartsWithCNoCoordinate(h: string)
    requires |h| > 0 && h[0] == 'c'
    ensures !IsLatHeader(h) && !IsLonHeader(h) && !IsAltHeader(h)
  {
    assert Lower(h)[0] == 'c';
  }

  /** The five roles of the mapping. */
  datatype Role = LatRole | LonRole | AltRole | HeadingRole | GimbalPitchRole

  function Column(m: Mapping, role: Role): Option<string> {
    match role
    case LatRole => m.lat
    case LonRole => m.lon
    case AltRole => m.alt
    case HeadingRole => m.heading
    case GimbalPitchRole => m.gimbalPitch
  }

  /** `handleMappingChange`: the chosen role takes the chosen column, or is
      unset by the `none` entry; every other role keeps its column. */
  function MappingChange(m: Mapping, role: Role, value: string): (r: Mapping)
    ensures Column(r, role) == (if value == "none" then None else Some(value))
    ensures forall other :: other != role ==> Column(r, other) == Column(m, other)
  {
    var v := if value == "none" then None else Some(value);
    match role
    case LatRole => m.(lat := v)
    case LonRole => m.(lon := v)
    case AltRole => m.(alt := v)
    case HeadingRole => m.(heading := v)
    case GimbalPitchRole => m.(gimbalPitch := v)
  }

  /** Choosing the column a role already has changes nothing, and a later
      choice for the same role replaces an earlier one. */
  lemma MappingChangeLaws(m: Mapping, role: Role, v: string, w: string)
    ensures v != "none" && Column(m, role) == Some(v) ==> MappingChange(m, role, v) == m
    ensures MappingChange(MappingChange(m, role, v), role, w) == MappingChange(m, role, w)
  {
  }

  datatype SubmitOutcome = Submitted(mapping: Mapping) | MissingCoordinates

  /** `handleSubmit`: refused while latitude or longitude is unset (or the
      empty name); otherwise the five roles are handed on unchanged. */
  function Submit(m: Mapping): (r: SubmitOutcome)
    ensures r.MissingCoordinates? <==> !Truthy(m.lat) || !Truthy(m.lon)
    ensures r.Submitted? ==> r.mapping == m
  {
    if !Truthy(m.lat) || !Truthy(m.lon) then MissingCoordinates else Submitted(m)
  }

  /** Submitting the proposed mapping straight away succeeds exactly when
      some header looks like a latitude and some header looks like a
      longitude. */
  lemma SubmitDetected(headers: seq<string>)
    ensures Submit(Detected(headers)).Submitted? <==>
      (exists i :: 0 <= i < |headers| && IsLatHeader(headers[i]))
      && (exists i :: 0 <= i < |headers| && IsLonHeader(headers[i]))
  {
    PatternsNeedText();
    var m := Detected(headers);
    if m.lat.Some? {
      assert m.lat.value != "";
    }
    if m.lon.Some? {
      assert m.lon.value != "";
    }
  }

  /** The proposed mapping never gives latitude and longitude the same
      column, nor either of them the altitude column, because the three
      coordinate patterns are disjoint. */
  lemma DetectedCoordinatesDistinct(headers: seq<string>)
    ensures var m := Detected(headers);
      !Clash(m.lat, m.lon) && !Clash(m.lat, m.alt) && !Clash(m.lon, m.alt)
  {
    var m := Detected(headers);
    if m.lat.Some? { PatternsDisjoint(m.lat.value); }
    if m.lon.Some? { PatternsDisjoint(m.lon.value); }
  }
  /** The latitude and longitude spellings have neither an 'h' nor an 'm'. */
  lemma CoordinateLetters(s: string)
    requires s in {"lat", "y", "latitude", "lon", "lng", "long", "x", "longitude"}
    ensures 'h' !in s && 'm' !in s
  {
  }

  /** A latitude or longitude header never looks like a heading or gimbal
      pitch column: "heading" needs an 'h' and "gimbal" an 'm'. */
  lemma CoordinateNotOrientation(h: string)
    requires IsLatHeader(h) || IsLonHeader(h)
    ensures !IsHeadingHeader(h) && !IsGimbalPitchHeader(h)
  {
    var s := Lower(h);
    CoordinateLetters(s);
    forall j | 0 <= j && j + 7 <= |s|
      ensures !OccursAt(s, "heading", j)
    {
      assert s[j..j + 7][0] == s[j] != 'h';
    }
    forall i | 0 <= i && i + 6 <= |s|
      ensures !OccursAt(s, "gimbal", i)
    {
      assert s[i..i + 6][2] == s[i + 2] != 'm';
    }
  }

  /** The proposed mapping satisfies the distinct-columns condition the
      import's round-trip lemma asks for. */
  lemma DetectedDistinct(headers: seq<string>)
    ensures DistinctColumns(Detected(headers))
  {
    var m := Detected(headers);
    DetectedCoordinatesDistinct(headers);
    if m.lat.Some? { CoordinateNotOrientation(m.lat.value); }
    if m.lon.Some? { CoordinateNotOrientation(m.lon.value); }
  }

  // ---------------------------------------------------------------------------
  // Loading a file into the dialog

  /** What the dialog holds between files: the offered headers and the
      current mapping. */
  datatype DialogState = DialogState(headers: seq<string>, mapping: Mapping)

  /** The header-row parse's `complete` callback as written. The header
      list is empty only for a file with no non-blank row; then the fallback
      calls the parser on the file a second time without a callback; for a
      file the parser then returns nothing, so reading its first row throws
      a TypeError before `setHeaders`, and the dialog keeps the headers and
      mapping of the previous file. */
  function LoadFileAsWritten(prev: DialogState, fields: seq<string>): (r: DialogState)
    ensures |fields| > 0 ==> r.headers == fields && r.mapping == Detected(fields)
    ensures |fields| == 0 ==> r == prev
  {
    if |fields| > 0 then DialogState(fields, Detected(fields)) else prev
  }

  /** The callback as intended: the file's own headers, or invented ones,
      and the mapping detected from them; nothing of the previous file is
      kept. */
  function LoadFile(fields: seq<string>, firstRow: Option<nat>): (r: DialogState)
    ensures r.headers == DialogHeaders(fields, firstRow) && r.mapping == Detected(r.headers)
    ensures |fields| > 0 ==> r.headers == fields
  {
    var hs := DialogHeaders(fields, firstRow);
    DialogState(hs, Detected(hs))
  }

  /** As written: in a dialog kept mounted across files, after a file with
      the headers `lat` and `lon`, a file with no non-blank row leaves those
      columns offered and mapped, and submitting hands them on although the
      new file has no such columns. */
  lemma StaleMappingAsWritten()
    ensures var first := LoadFileAsWritten(DialogState([], Mapping(None, None, None, None, None)), ["lat", "lon"]);
      var second := LoadFileAsWritten(first, []);
      && second.headers == ["lat", "lon"]
      && second.mapping.lat == Some("lat") && second.mapping.lon == Some("lon")
      && Submit(second.mapping).Submitted?
  {
    var hs := ["lat", "lon"];
    assert Lower(hs[0]) == "lat" && Lower(hs[1]) == "lon";
    assert !IsLonHeader(hs[0]) && !IsLatHeader(hs[1]);
    assert FirstMatching(hs, IsLatHeader) == Some("lat");
    assert FirstMatching(hs[1..], IsLonHeader) == Some("lon");
  }

  /** As intended: whatever was shown before, a file with no non-blank row
      gets only its own (invented) column names, one per cell of its first
      row, and its proposal is refused on submit. */
  lemma LoadFileWithoutHeaders(firstRow: Option<nat>)
    ensures var s := LoadFile([], firstRow);
      && |s.headers| == (if firstRow.Some? then firstRow.value else 0)
      && Submit(s.mapping) == MissingCoordinates
  {
    FallbackDetectsNoCoordinates(if firstRow.Some? then firstRow.value else 0);
  }
}
