/**
 * The LDAP controls exchanged with the directory server on every page: the
 * sort request (RFC 2891, section 1.1), the virtual-list-view request in
 * offset form (draft-ietf-ldapext-ldapv3-vlv, section 6.1), and the decoded
 * sort and list-view responses (RFC 2891, section 1.2; the VLV draft, section 6.2).
 * The BER encoding itself is not modelled: responses arrive already decoded,
 * with one variant per point at which the ASN.1 reader can give up.
 */
module Controls {
  import opened Wrappers

  type Bytes = seq<bv8>

  /** A search result: its name, used for the overlap check, and its attribute values. */
  datatype Entry = Entry(name: string, attributes: seq<string>)

  // ---------------------------------------------------------------------------
  // Configuration: the sort attribute.
  // ---------------------------------------------------------------------------

  /** `isBlank`: null, or nothing left once `String.trim()` drops every character up to U+0020. */
  predicate IsBlank(s: Option<string>) {
    s.None? || forall i :: 0 <= i < |s.value| ==> s.value[i] <= ' '
  }

  const DefaultSortAttribute: string := "uid"

  /** The attribute the index is sorted on: the configured one, or `uid` when that is blank. */
  function SortAttribute(configured: Option<string>): (attr: string)
    ensures !IsBlank(Some(attr))
    ensures IsBlank(configured) ==> attr == DefaultSortAttribute
    ensures !IsBlank(configured) ==> Some(attr) == configured
  {
    if IsBlank(configured) then
      assert DefaultSortAttribute[0] == 'u';
      DefaultSortAttribute
    else configured.value
  }

  // ---------------------------------------------------------------------------
  // Request controls.
  // ---------------------------------------------------------------------------

  const Critical: bool := true

  /** A server-side sort request on a single attribute. */
  datatype SortKey = SortKey(attribute: string, critical: bool)

  /** A list-view request in offset form. */
  datatype VlvRequest = VlvOffset(critical: bool, target: int, contentCount: int,
                                  beforeCount: int, afterCount: int, contextId: Bytes)

  /** The pair of controls sent with one page request. */
  datatype Request = Request(sort: SortKey, vlv: VlvRequest)

  // ---------------------------------------------------------------------------
  // Response controls.
  // ---------------------------------------------------------------------------

  /**
   * The value of a list-view response control as far as the reader got.
   * NoValue: the value is null or empty and is skipped.
   * Complete: offset, content count, result code and the optional cookie were all read.
   * TruncatedBeforeCount: reading failed before the content count.
   * TruncatedAfterCount: the content count was read, the result code was not.
   * TruncatedAfterCode: the result code was read, then probing for or reading the cookie failed.
   * Counts are the reader's 64-bit values; the caller narrows them to `int`.
   */
  datatype VlvResponse =
    | NoValue
    | Complete(offset: int, count: int, code: int, cookie: Option<Bytes>)
    | TruncatedBeforeCount
    | TruncatedAfterCount(count: int)
    | TruncatedAfterCode(count: int)

  datatype ResponseControl =
    | SortResult(sorted: bool, code: int)
    | VlvResult(value: VlvResponse)
    | OtherControl

  /** Why a page search failed. */
  datatype Error =
    | SortFailed(code: int)   // the sort response's own exception
    | ViewFailed              // "The view operation has failed on LDAP server"
    | Transport               // the search itself failed

  /** Java's `(int)` cast of a `long`: keep the low 32 bits, two's complement. */
  function ToInt32(x: int): (r: int)
    ensures -0x8000_0000 <= r < 0x8000_0000
    ensures (x - r) % 0x1_0000_0000 == 0
    ensures -0x8000_0000 <= x < 0x8000_0000 ==> r == x
  {
    var m := (x + 0x8000_0000) % 0x1_0000_0000;
    assert x + 0x8000_0000 == 0x1_0000_0000 * ((x + 0x8000_0000) / 0x1_0000_0000) + m;
    m - 0x8000_0000
  }

  /** A control that makes response processing throw. */
  predicate Rejects(c: ResponseControl) {
    (c.SortResult? && (!c.sorted || c.code != 0)) ||
    (c.VlvResult? && c.value.Complete? && c.value.code != 0)
  }

  /** The content count a control assigns to `lastListSize`, if it gets that far. */
  function ReportedCount(c: ResponseControl): Option<int> {
    match c
    case VlvResult(Complete(_, n, _, _)) => Some(ToInt32(n))
    case VlvResult(TruncatedAfterCount(n)) => Some(ToInt32(n))
    case VlvResult(TruncatedAfterCode(n)) => Some(ToInt32(n))
    case _ => None
  }

  /** The cookie a control assigns, if it carries one that was read. */
  function ReportedCookie(c: ResponseControl): Option<Bytes> {
    match c
    case VlvResult(Complete(_, _, _, ck)) => ck
    case _ => None
  }

  /** The list-view state after response processing, and the error it raised, if any. */
  datatype Decoded = Decoded(lastListSize: int, cookie: Bytes, error: Option<Error>)

  /** The effect of one response control. */
  function ProcessOne(lastListSize: int, cookie: Bytes, c: ResponseControl): (d: Decoded)
    ensures d.error.Some? <==> Rejects(c)
    ensures d.lastListSize == ReportedCount(c).GetOr(lastListSize)
    ensures d.cookie == ReportedCookie(c).GetOr(cookie)
  {
    match c
    case SortResult(sorted, code) =>
      Decoded(lastListSize, cookie, if !sorted || code != 0 then Some(SortFailed(code)) else None)
    case OtherControl => Decoded(lastListSize, cookie, None)
    case VlvResult(v) =>
      match v
      case NoValue => Decoded(lastListSize, cookie, None)
      case TruncatedBeforeCount => Decoded(lastListSize, cookie, None)
      case TruncatedAfterCount(n) => Decoded(ToInt32(n), cookie, None)
      case TruncatedAfterCode(n) => Decoded(ToInt32(n), cookie, None)
      case Complete(_, n, code, ck) =>
        Decoded(ToInt32(n), ck.GetOr(cookie), if code != 0 then Some(ViewFailed) else None)
  }

  /**
   * Response-control processing: the controls in order, each updating the
   * list-view state, stopping at the first one that throws. The state keeps
   * every update made before the throw.
   */
  function Process(lastListSize: int, cookie: Bytes, controls: seq<ResponseControl>): Decoded
    decreases |controls|
  {
    if controls == [] then Decoded(lastListSize, cookie, None)
    else
      var d := ProcessOne(lastListSize, cookie, controls[0]);
      if d.error.Some? then d
      else Process(d.lastListSize, d.cookie, controls[1..])
  }

  /** The content count of the last control that reports one, read from the back. */
  function LastReportedCount(controls: seq<ResponseControl>): Option<int>
    decreases |controls|
  {
    if controls == [] then None
    else if ReportedCount(controls[|controls| - 1]).Some? then ReportedCount(controls[|controls| - 1])
    else LastReportedCount(controls[..|controls| - 1])
  }

  /** The cookie of the last control that carries one, read from the back. */
  function LastReportedCookie(controls: seq<ResponseControl>): Option<Bytes>
    decreases |controls|
  {
    if controls == [] then None
    else if ReportedCookie(controls[|controls| - 1]).Some? then ReportedCookie(controls[|controls| - 1])
    else LastReportedCookie(controls[..|controls| - 1])
  }

  // ---------------------------------------------------------------------------
  // Properties of response processing.
  // ---------------------------------------------------------------------------

  /** Processing raises an error exactly when some control rejects, and then it is the first one's. */
  lemma {:induction false} ProcessFailsIff(lastListSize: int, cookie: Bytes, controls: seq<ResponseControl>)
    ensures var d := Process(lastListSize, cookie, controls);
      d.error.None? <==> forall i :: 0 <= i < |controls| ==> !Rejects(controls[i])
    ensures var d := Process(lastListSize, cookie, controls);
      d.error.Some? ==>
        exists i :: (0 <= i < |controls| && Rejects(controls[i]) &&
                     (forall j :: 0 <= j < i ==> !Rejects(controls[j])) &&
                     d.error == ProcessOne(0, [], controls[i]).error)
    decreases |controls|
  {
    if controls != [] {
      var d := ProcessOne(lastListSize, cookie, controls[0]);
      if d.error.None? {
        ProcessFailsIff(d.lastListSize, d.cookie, controls[1..]);
        var e := Process(lastListSize, cookie, controls);
        if e.error.Some? {
          var i :| 0 <= i < |controls| - 1 && Rejects(controls[1..][i]) &&
            (forall j :: 0 <= j < i ==> !Rejects(controls[1..][j])) &&
            e.error == ProcessOne(0, [], controls[1..][i]).error;
          assert Rejects(controls[i + 1]);
          forall j | 0 <= j < i + 1 ensures !Rejects(controls[j]) {
            if j > 0 { assert controls[j] == controls[1..][j - 1]; }
          }
        } else {
          forall i | 0 <= i < |controls| ensures !Rejects(controls[i]) {
            if i > 0 { assert controls[i] == controls[1..][i - 1]; }
          }
        }
      } else {
        assert Rejects(controls[0]);
      }
    }
  }

  /** Reading the last reported count from the front gives the same answer as from the back. */
  lemma {:induction false} LastReportedCountCons(c: ResponseControl, rest: seq<ResponseControl>)
    ensures LastReportedCount([c] + rest) ==
      (if LastReportedCount(rest).Some? then LastReportedCount(rest) else ReportedCount(c))
    decreases |rest|
  {
    var all := [c] + rest;
    if rest == [] {
      assert all[..|all| - 1] == [];
    } else {
      assert all[|all| - 1] == rest[|rest| - 1];
      assert all[..|all| - 1] == [c] + rest[..|rest| - 1];
      LastReportedCountCons(c, rest[..|rest| - 1]);
    }
  }

  /** Reading the last reported cookie from the front gives the same answer as from the back. */
  lemma {:induction false} LastReportedCookieCons(c: ResponseControl, rest: seq<ResponseControl>)
    ensures LastReportedCookie([c] + rest) ==
      (if LastReportedCookie(rest).Some? then LastReportedCookie(rest) else ReportedCookie(c))
    decreases |rest|
  {
    var all := [c] + rest;
    if rest == [] {
      assert all[..|all| - 1] == [];
    } else {
      assert all[|all| - 1] == rest[|rest| - 1];
      assert all[..|all| - 1] == [c] + rest[..|rest| - 1];
      LastReportedCookieCons(c, rest[..|rest| - 1]);
    }
  }

  /**
   * When no control rejects, processing leaves `lastListSize` at the last
   * reported content count and `cookie` at the last cookie received, each
   * unchanged when no control supplied one.
   */
  lemma {:induction false} ProcessSucceeds(lastListSize: int, cookie: Bytes, controls: seq<ResponseControl>)
    requires forall i :: 0 <= i < |controls| ==> !Rejects(controls[i])
    ensures Process(lastListSize, cookie, controls) ==
      Decoded(LastReportedCount(controls).GetOr(lastListSize), LastReportedCookie(controls).GetOr(cookie), None)
    decreases |controls|
  {
    if controls != [] {
      var d := ProcessOne(lastListSize, cookie, controls[0]);
      assert !Rejects(controls[0]);
      forall i | 0 <= i < |controls| - 1 ensures !Rejects(controls[1..][i]) {
        assert controls[1..][i] == controls[i + 1];
      }
      ProcessSucceeds(d.lastListSize, d.cookie, controls[1..]);
      assert controls == [controls[0]] + controls[1..];
      LastReportedCountCons(controls[0], controls[1..]);
      LastReportedCookieCons(controls[0], controls[1..]);
    }
  }
}
