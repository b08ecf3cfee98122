/**
 * Accessibility checking of a post URL: the table from HTTP status to
 * accessibility status, the scan of a page body for "deleted" and
 * "private" phrases, the bounded retry loop of one validation and the
 * batch validation of a list of URLs.
 *
 * The network is an oracle: `tries(k)` is what the `k`-th request
 * attempt produced. Elapsed time and the validation timestamp are not
 * modelled.
 */
module UrlValidator {
  import opened Wrappers
  import opened Text

  datatype UrlStatus = Accessible | Private | Deleted | LoginRequired | RateLimited | TimedOut | Unknown

  /** The enum value of a status. */
  function UrlStatusValue(s: UrlStatus): string
  {
    match s
    case Accessible => "accessible"
    case Private => "private"
    case Deleted => "deleted"
    case LoginRequired => "login_required"
    case RateLimited => "rate_limited"
    case TimedOut => "timeout"
    case Unknown => "unknown"
  }

  /** Distinct statuses have distinct values. */
  lemma UrlStatusValueInjective(a: UrlStatus, b: UrlStatus)
    requires UrlStatusValue(a) == UrlStatusValue(b)
    ensures a == b
  {
  }

  /** `STATUS_MAPPING`. */
  const StatusMapping: map<int, UrlStatus> :=
    map[200 := Accessible, 401 := LoginRequired, 403 := Private, 404 := Deleted, 429 := RateLimited]

  /** `STATUS_MAPPING.get(code, URLStatus.UNKNOWN)`. */
  function StatusFor(code: int): (r: UrlStatus)
    ensures r == Accessible <==> code == 200
    ensures r == LoginRequired <==> code == 401
    ensures r == Private <==> code == 403
    ensures r == Deleted <==> code == 404
    ensures r == RateLimited <==> code == 429
    ensures r == Unknown <==> code !in {200, 401, 403, 404, 429}
    ensures r != TimedOut
  {
    if code in StatusMapping then StatusMapping[code] else Unknown
  }

  const PrivateIndicators: seq<string> := [
    "This page isn't available",
    "Sorry, this page isn't available",
    "content isn't available",
    "This content isn't available",
    "private account",
    "Log in to see photos"
  ]

  const DeletedIndicators: seq<string> := [
    "Page Not Found",
    "This page may have been removed",
    "content has been removed",
    "no longer available"
  ]

  /** Some phrase of `phrases` occurs in `content`, ignoring case. */
  predicate Mentions(content: string, phrases: seq<string>)
  {
    exists k :: 0 <= k < |phrases| && ContainsIgnoreCase(content, phrases[k])
  }

  /** The loop over `phrases` that stops at the first one found in `content`. */
  function AnyPhrase(content: string, phrases: seq<string>): (r: bool)
    ensures r <==> Mentions(content, phrases)
    decreases |phrases|
  {
    if phrases == [] then false
    else if ContainsIgnoreCase(content, phrases[0]) then true
    else
      var r := AnyPhrase(content, phrases[1..]);
      assert Mentions(content, phrases) <==> Mentions(content, phrases[1..]) by {
        forall k | 1 <= k < |phrases|
          ensures phrases[k] == phrases[1..][k - 1]
        {
        }
      }
      r
  }

  /**
   * `_analyze_content`: deleted when a deleted phrase occurs, else private
   * when a private phrase occurs, else accessible.
   */
  function AnalyzeContent(content: string): (r: UrlStatus)
    ensures r == Deleted <==> Mentions(content, DeletedIndicators)
    ensures r == Private <==> !Mentions(content, DeletedIndicators) && Mentions(content, PrivateIndicators)
    ensures r == Accessible <==> !Mentions(content, DeletedIndicators) && !Mentions(content, PrivateIndicators)
  {
    if AnyPhrase(content, DeletedIndicators) then Deleted
    else if AnyPhrase(content, PrivateIndicators) then Private
    else Accessible
  }

  /** A page that carries both kinds of phrase counts as deleted: the deleted phrases are checked first. */
  lemma DeletedBeforePrivate(content: string, d: nat, p: nat)
    requires d < |DeletedIndicators| && ContainsIgnoreCase(content, DeletedIndicators[d])
    requires p < |PrivateIndicators| && ContainsIgnoreCase(content, PrivateIndicators[p])
    ensures AnalyzeContent(content) == Deleted
  {
  }

  /** A body scan never yields one of the statuses that only the HTTP code or the retry loop gives. */
  lemma AnalyzeContentRange(content: string)
    ensures AnalyzeContent(content) in {Accessible, Private, Deleted}
  {
  }

  /** A page that opens with "Page Not Found", such as the "deleted" example, is deleted whatever follows. */
  lemma DeletedExample(rest: string)
    ensures AnalyzeContent("Page Not Found" + rest) == Deleted
  {
    var p := DeletedIndicators[0];
    assert p == "Page Not Found";
    PrefixContainsIgnoreCase(p, rest);
    assert Mentions(p + rest, DeletedIndicators);
  }

  lemma PrefixContainsIgnoreCase(p: string, rest: string)
    ensures ContainsIgnoreCase(p + rest, p)
  {
    assert ToLower(p + rest)[0..|p|] == ToLower(p);
    ContainsAt(ToLower(p + rest), ToLower(p), 0);
  }

  /** What one request attempt produced. */
  datatype Attempt =
    | Response(code: int, body: Option<string>)  // `body` is `None` when reading it raised
    | Timeout
    | ClientError(message: string)

  /** `ValidationResult` without its clock fields. */
  datatype ValidationResult = ValidationResult(url: string, status: UrlStatus, httpStatus: Option<int>, errorMessage: Option<string>)

  const MaxRetriesMessage := "Max retries exceeded"

  function TimeoutMessage(timeout: int): string
  {
    "Timeout after " + IntToString(timeout) + "s"
  }

  /** The result built from an HTTP response: only a 200 response consults the body. */
  function ResponseResult(url: string, code: int, body: Option<string>): (r: ValidationResult)
    ensures r.url == url && r.httpStatus == Some(code) && r.errorMessage.None?
    ensures code != 200 ==> r.status == StatusFor(code)
    ensures code == 200 && body.None? ==> r.status == Accessible
    ensures code == 200 && body.Some? ==> r.status == AnalyzeContent(body.value)
  {
    var status := StatusFor(code);
    if code == 200 && body.Some? then ValidationResult(url, AnalyzeContent(body.value), Some(code), None)
    else ValidationResult(url, status, Some(code), None)
  }

  /** The result when the last allowed attempt failed without a response. */
  function FailureResult(url: string, timeout: int, a: Attempt): (r: ValidationResult)
    requires !a.Response?
    ensures r.url == url && r.httpStatus.None? && r.errorMessage.Some?
    ensures a.Timeout? ==> r.status == TimedOut && r.errorMessage == Some(TimeoutMessage(timeout))
    ensures a.ClientError? ==> r.status == Unknown && r.errorMessage == Some(a.message)
  {
    match a
    case Timeout => ValidationResult(url, TimedOut, None, Some(TimeoutMessage(timeout)))
    case ClientError(m) => ValidationResult(url, Unknown, None, Some(m))
  }

  /**
   * The retry loop from attempt `k` on: the result and the number of
   * attempts made in all.
   */
  function ValidateFrom(url: string, timeout: int, maxRetries: int, tries: nat -> Attempt, k: nat)
    : (ValidationResult, nat)
    decreases maxRetries - k
  {
    if k >= maxRetries then (ValidationResult(url, Unknown, None, Some(MaxRetriesMessage)), k)
    else if tries(k).Response? then (ResponseResult(url, tries(k).code, tries(k).body), k + 1)
    else if k == maxRetries - 1 then (FailureResult(url, timeout, tries(k)), k + 1)
    else ValidateFrom(url, timeout, maxRetries, tries, k + 1)
  }

  /** `validate(url)` with `max_retries` retries and the given attempt outcomes. */
  function Validation(url: string, timeout: int, maxRetries: int, tries: nat -> Attempt): (ValidationResult, nat)
  {
    ValidateFrom(url, timeout, maxRetries, tries, 0)
  }

  /**
   * The retry loop's result, described without recursion: from attempt
   * `k` on, the attempts before the last one made all failed without a
   * response, and the last one made is either a response, which decides
   * the result, or the final allowed attempt, whose failure does.
   */
  ghost predicate DecidedBy(url: string, timeout: int, maxRetries: int, tries: nat -> Attempt, k: nat,
                            r: ValidationResult, n: nat)
  {
    k < n <= maxRetries
    && (forall j :: k <= j < n - 1 ==> !tries(j).Response?)
    && if tries(n - 1).Response? then r == ResponseResult(url, tries(n - 1).code, tries(n - 1).body)
       else n == maxRetries && r == FailureResult(url, timeout, tries(n - 1))
  }

  lemma {:induction false} ValidateFromDecided(url: string, timeout: int, maxRetries: int, tries: nat -> Attempt, k: nat)
    requires k < maxRetries
    ensures DecidedBy(url, timeout, maxRetries, tries, k,
                      ValidateFrom(url, timeout, maxRetries, tries, k).0, ValidateFrom(url, timeout, maxRetries, tries, k).1)
    decreases maxRetries - k
  {
    if !tries(k).Response? && k < maxRetries - 1 {
      ValidateFromDecided(url, timeout, maxRetries, tries, k + 1);
    }
  }

  /** With at least one attempt allowed, the result is decided by the last attempt made, and at most `max_retries` are made. */
  lemma ValidationDecided(url: string, timeout: int, maxRetries: int, tries: nat -> Attempt)
    requires maxRetries > 0
    ensures DecidedBy(url, timeout, maxRetries, tries, 0, Validation(url, timeout, maxRetries, tries).0,
                      Validation(url, timeout, maxRetries, tries).1)
  {
    ValidateFromDecided(url, timeout, maxRetries, tries, 0);
  }

  /** With no attempt allowed, nothing is tried and the result is unknown with "Max retries exceeded". */
  lemma NoAttempts(url: string, timeout: int, maxRetries: int, tries: nat -> Attempt)
    requires maxRetries <= 0
    ensures Validation(url, timeout, maxRetries, tries) == (ValidationResult(url, Unknown, None, Some(MaxRetriesMessage)), 0)
  {
  }

  /** The first response within the allowed attempts ends the loop: its status code is kept and there is no error message. */
  lemma FirstResponseEnds(url: string, timeout: int, maxRetries: int, tries: nat -> Attempt, j: nat)
    requires j < maxRetries && tries(j).Response?
    requires forall i :: 0 <= i < j ==> !tries(i).Response?
    ensures Validation(url, timeout, maxRetries, tries).1 == j + 1
    ensures Validation(url, timeout, maxRetries, tries).0 == ResponseResult(url, tries(j).code, tries(j).body)
  {
    ValidationDecided(url, timeout, maxRetries, tries);
  }

  /** When no allowed attempt gets a response, all of them are made and the last one's failure is the result. */
  lemma AllAttemptsFail(url: string, timeout: int, maxRetries: int, tries: nat -> Attempt)
    requires maxRetries > 0
    requires forall i :: 0 <= i < maxRetries ==> !tries(i).Response?
    ensures Validation(url, timeout, maxRetries, tries).1 == maxRetries
    ensures Validation(url, timeout, maxRetries, tries).0 == FailureResult(url, timeout, tries(maxRetries - 1))
  {
    ValidationDecided(url, timeout, maxRetries, tries);
  }

  /** `URLValidator.validate`: the loop over the allowed attempts, returning at a response or at a failure of the final one. */
  method Validate(url: string, timeout: int, maxRetries: int, tries: nat -> Attempt) returns (r: ValidationResult, attempts: nat)
    ensures (r, attempts) == Validation(url, timeout, maxRetries, tries)
  {
    var attempt: nat := 0;
    while attempt < maxRetries
      invariant Validation(url, timeout, maxRetries, tries) == ValidateFrom(url, timeout, maxRetries, tries, attempt)
      decreases maxRetries - attempt
    {
      match tries(attempt) {
      case Response(code, body) =>
        var status := StatusFor(code);
        if code == 200 {
          match body
          case Some(content) => status := AnalyzeContent(content);
          case None =>
        }
        r, attempts := ValidationResult(url, status, Some(code), None), attempt + 1;
        return;
      case Timeout =>
        if attempt == maxRetries - 1 {
          r, attempts := ValidationResult(url, TimedOut, None, Some(TimeoutMessage(timeout))), attempt + 1;
          return;
        }
      case ClientError(m) =>
        if attempt == maxRetries - 1 {
          r, attempts := ValidationResult(url, Unknown, None, Some(m)), attempt + 1;
          return;
        }
      }
      attempt := attempt + 1;
    }
    r, attempts := ValidationResult(url, Unknown, None, Some(MaxRetriesMessage)), attempt;
  }

  lemma {:induction false} ValidateFromUrl(url: string, timeout: int, maxRetries: int, tries: nat -> Attempt, k: nat)
    ensures ValidateFrom(url, timeout, maxRetries, tries, k).0.url == url
    decreases maxRetries - k
  {
    if k < maxRetries - 1 && !tries(k).Response? {
      ValidateFromUrl(url, timeout, maxRetries, tries, k + 1);
    }
  }

  /**
   * `batch_validate`: one result per URL, in the order of the input; the
   * `i`-th URL's attempts are `tries(i)`.
   */
  function BatchValidate(urls: seq<string>, timeout: int, maxRetries: int, tries: nat -> nat -> Attempt): (r: seq<ValidationResult>)
    ensures |r| == |urls|
    ensures forall i :: 0 <= i < |urls| ==> r[i].url == urls[i]
    ensures forall i :: 0 <= i < |urls| ==> r[i] == Validation(urls[i], timeout, maxRetries, tries(i)).0
    decreases |urls|
  {
    if urls == [] then []
    else
      var n := |urls| - 1;
      ValidateFromUrl(urls[n], timeout, maxRetries, tries(n), 0);
      BatchValidate(urls[..n], timeout, maxRetries, tries) + [Validation(urls[n], timeout, maxRetries, tries(n)).0]
  }
}
