/**
 * The decision logic of saveIcon: which icons are mirrored, where the copy goes, and what
 * the icon's src is afterwards. The directory creation and the download are outcomes given
 * as inputs; the date, the unique id and the file extension are inputs too.
 */
module CardIcons {
  import opened Wrappers
  import opened ServiceErrors
  import opened JavaText

  /** A LocalDate, as LocalDate.now() returns it. */
  datatype LocalDate = LocalDate(year: int, month: int, day: int)

  /** A calendar date whose year DateTimeFormatter.BASIC_ISO_DATE prints in four digits. */
  predicate ValidDate(d: LocalDate) {
    0 <= d.year <= 9999 && 1 <= d.month <= 12 && 1 <= d.day <= 31
  }

  predicate IsDigit(c: char) {
    '0' <= c <= '9'
  }

  /** 10^n; its lower bound is what ZeroPadded's width argument needs. */
  function Pow10(n: nat): (p: nat)
    ensures p >= 1
  {
    if n == 0 then 1 else 10 * Pow10(n - 1)
  }

  /** n in decimal, left-padded with zeros to exactly width digits. */
  function ZeroPadded(n: nat, width: nat): (s: string)
    requires n < Pow10(width)
    ensures |s| == width
    ensures forall i :: 0 <= i < |s| ==> IsDigit(s[i])
  {
    if width == 0 then ""
    else ZeroPadded(n / 10, width - 1) + [('0' as int + n % 10) as char]
  }

  /** The number a string of decimal digits denotes. */
  function DecimalValue(s: string): nat
    requires forall i :: 0 <= i < |s| ==> IsDigit(s[i])
  {
    if s == [] then 0
    else
      assert IsDigit(s[|s| - 1]);
      10 * DecimalValue(s[..|s| - 1]) + (s[|s| - 1] as int - '0' as int)
  }

  /** Reading a zero-padded number back gives the number. */
  lemma {:induction false} ZeroPaddedRoundTrip(n: nat, width: nat)
    requires n < Pow10(width)
    ensures DecimalValue(ZeroPadded(n, width)) == n
  {
    if width > 0 {
      ZeroPaddedRoundTrip(n / 10, width - 1);
      var s := ZeroPadded(n, width);
      assert s[..|s| - 1] == ZeroPadded(n / 10, width - 1);
    }
  }

  /** DateTimeFormatter.BASIC_ISO_DATE: yyyyMMdd. */
  function BasicIsoDate(d: LocalDate): string
    requires ValidDate(d)
  {
    ZeroPadded(d.year, 4) + ZeroPadded(d.month, 2) + ZeroPadded(d.day, 2)
  }

  /** The public prefix under which cached icons are served. */
  const IconDirectory: string := "/ext-resources/images/"

  /** The path format "/ext-resources/images/{}/{}.{}" filled with the date, the unique id and the extension. */
  function IconPath(today: LocalDate, uuid: string, ext: string): string
    requires ValidDate(today)
  {
    IconDirectory + BasicIsoDate(today) + "/" + uuid + "." + ext
  }

  /**
   * The cache path reads back: the fixed prefix, eight digits that denote the year, month and
   * day, a slash, the unique id, a dot and the extension.
   */
  lemma IconPathParts(today: LocalDate, uuid: string, ext: string)
    requires ValidDate(today)
    ensures var p := IconPath(today, uuid, ext);
      && |p| == 22 + 8 + 1 + |uuid| + 1 + |ext|
      && p[..22] == IconDirectory
      && (forall i :: 22 <= i < 30 ==> IsDigit(p[i]))
      && DecimalValue(p[22..26]) == today.year
      && DecimalValue(p[26..28]) == today.month
      && DecimalValue(p[28..30]) == today.day
      && p[30] == '/'
      && p[31..31 + |uuid|] == uuid
      && p[31 + |uuid|] == '.'
      && p[32 + |uuid|..] == ext
  {
    var p := IconPath(today, uuid, ext);
    var date := BasicIsoDate(today);
    assert p[22..30] == date;
    assert p[22..26] == ZeroPadded(today.year, 4);
    assert p[26..28] == ZeroPadded(today.month, 2);
    assert p[28..30] == ZeroPadded(today.day, 2);
    ZeroPaddedRoundTrip(today.year, 4);
    ZeroPaddedRoundTrip(today.month, 2);
    ZeroPaddedRoundTrip(today.day, 2);
  }

  /**
   * What saveIcon leaves in the icon's src, or the exception it raises: a src that does not
   * start with "http" is kept; a directory that cannot be created raises ResourceWrite; a
   * successful download rewrites src to the cache path; a failed one is swallowed and keeps src.
   */
  function SavedIconSrc(src: Option<string>, today: LocalDate, uuid: string, ext: string,
                        mkdirOk: bool, downloadOk: bool): Result<Option<string>, ServiceError>
    requires ValidDate(today)
  {
    if !StartsWith(src, "http") then Success(src)
    else if !mkdirOk then Failure(ResourceWrite)
    else if downloadOk then Success(Some(IconPath(today, uuid, ext)))
    else Success(src)
  }

  /**
   * The icon is rewritten only by a successful download, and then to a local cache path; in
   * every other case that does not raise, src is what it was.
   */
  lemma SavedIconSrcSpec(src: Option<string>, today: LocalDate, uuid: string, ext: string, mkdirOk: bool, downloadOk: bool)
    requires ValidDate(today)
    ensures var r := SavedIconSrc(src, today, uuid, ext, mkdirOk, downloadOk);
      && (r.Failure? <==> StartsWith(src, "http") && !mkdirOk)
      && (r.Failure? ==> r.error == ResourceWrite)
      && (r.Success? && r.value != src <==> StartsWith(src, "http") && mkdirOk && downloadOk)
      && (r.Success? && r.value != src ==> r.value == Some(IconPath(today, uuid, ext)))
      && (r.Success? && r.value != src ==> IconDirectory <= r.value.value && !StartsWith(r.value, "http"))
  {
    if StartsWith(src, "http") && mkdirOk && downloadOk {
      var p := IconPath(today, uuid, ext);
      assert p[0] == '/';
      assert p != src.value by {
        assert "http" <= src.value;
      }
    }
  }

  /** Saving the icon again after it was cached changes nothing and raises nothing: no second download. */
  lemma {:induction false} SavedIconSrcIdempotent(src: Option<string>, today: LocalDate, uuid: string, ext: string,
                                                  mkdirOk: bool, downloadOk: bool,
                                                  today': LocalDate, uuid': string, ext': string, mkdirOk': bool, downloadOk': bool)
    requires ValidDate(today) && ValidDate(today')
    requires SavedIconSrc(src, today, uuid, ext, mkdirOk, downloadOk).Success?
    requires SavedIconSrc(src, today, uuid, ext, mkdirOk, downloadOk).value != src
    ensures var cached := SavedIconSrc(src, today, uuid, ext, mkdirOk, downloadOk).value;
      SavedIconSrc(cached, today', uuid', ext', mkdirOk', downloadOk') == Success(cached)
  {
    var p := IconPath(today, uuid, ext);
    assert p[0] == '/';
  }
}
