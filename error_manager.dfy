/**
 * The central error manager: it sorts a throwable into a category, decides whether to report
 * it and which recovery to suggest, and ignores an error whose id was recorded less than five
 * seconds earlier, keeping a cache of recent ids with their timestamps.
 */
module ErrorManagement {
  import opened Results

  datatype ErrorCategory = NETWORK | DATABASE | VALIDATION | CALCULATION | SYSTEM | SECURITY | UNKNOWN
  datatype ErrorSeverity = LOW | MEDIUM | HIGH | CRITICAL

  datatype ErrorContext = ErrorContext(screenName: string, userAction: string)

  datatype CategorizedError = CategorizedError(
    originalError: Throwable, category: ErrorCategory, isRecoverable: bool, userMessage: string)

  datatype RecoveryResult =
    | NotApplicable
    | ActionTaken(description: string)
    | RetryRecommended(suggestion: string)
    | ManualInterventionRequired(instruction: string)
    | Failed(reason: string)

  /** What handling one error did: ignored as a duplicate, or handled (reported or not). */
  datatype ErrorHandlingResult =
    | Handled(category: ErrorCategory, reported: bool, recovery: RecoveryResult)
    | Ignored(reason: string)

  const DUPLICATE_ERROR_THRESHOLD: int := 5000
  const MAX_ERROR_CACHE_SIZE: nat := 50
  const DUPLICATE_REASON: string := "Erreur dupliquée ignorée"

  /** Only the network, database, validation and calculation categories can be recovered from. */
  predicate RecoverableCategory(c: ErrorCategory)
  {
    c == NETWORK || c == DATABASE || c == VALIDATION || c == CALCULATION
  }

  /** `categorizeError`. */
  function CategorizeError(error: Throwable): (e: CategorizedError)
    ensures e.originalError == error
    ensures e.isRecoverable <==> RecoverableCategory(e.category)
    ensures error.ValidationError? || error.CalculationError? ==> e.userMessage == error.message
    ensures error.Other? || error.UnknownError? ==> e.category == UNKNOWN
  {
    match error
    case NetworkError => CategorizedError(error, NETWORK, true, "Problème de connexion réseau")
    case DatabaseError => CategorizedError(error, DATABASE, true, "Erreur de base de données")
    case ValidationError(m) => CategorizedError(error, VALIDATION, true, m)
    case CalculationError(m) => CategorizedError(error, CALCULATION, true, m)
    case OutOfMemoryError => CategorizedError(error, SYSTEM, false, "Mémoire insuffisante")
    case SecurityException => CategorizedError(error, SECURITY, false, "Erreur de sécurité")
    case _ => CategorizedError(error, UNKNOWN, false, "Une erreur inattendue s'est produite")
  }

  /** `attemptRecovery`: nothing for an unrecoverable error; otherwise one action per category. */
  function AttemptRecovery(error: CategorizedError): (r: RecoveryResult)
    ensures r.NotApplicable? <==> !error.isRecoverable
    ensures error.isRecoverable && error.category == NETWORK ==> r.RetryRecommended?
    ensures !r.Failed?
  {
    if !error.isRecoverable then NotApplicable
    else
      match error.category
      case NETWORK => RetryRecommended("Vérifiez votre connexion internet")
      case DATABASE => ActionTaken("Base de données réinitialisée")
      case VALIDATION => ActionTaken("Champs réinitialisés")
      case CALCULATION => ActionTaken("Calculatrice réinitialisée")
      case _ => ManualInterventionRequired("Intervention manuelle requise")
  }

  /** A categorised error is always recoverable exactly in the four recoverable categories. */
  lemma RecoveryOfCategorized(error: Throwable)
    ensures var e := CategorizeError(error);
            AttemptRecovery(e).NotApplicable? <==> !RecoverableCategory(e.category)
    ensures var e := CategorizeError(error);
            RecoverableCategory(e.category) ==> AttemptRecovery(e).ActionTaken? || AttemptRecovery(e).RetryRecommended?
  {
  }

  /** `shouldReportError`, as its chain of cases. */
  function ShouldReportError(error: CategorizedError, severity: ErrorSeverity): (b: bool)
  {
    if severity == CRITICAL then true
    else if error.category == SECURITY then true
    else if error.category == SYSTEM then true
    else if severity == HIGH && error.category != VALIDATION then true
    else false
  }

  function Rank(s: ErrorSeverity): nat
  {
    match s
    case LOW => 0
    case MEDIUM => 1
    case HIGH => 2
    case CRITICAL => 3
  }

  /**
   * A low or medium error is never reported unless it is a security or system error; in full,
   * an error is reported exactly when critical, or of the security or system category, or high
   * and not a validation error.
   */
  lemma ReportRule(error: CategorizedError, severity: ErrorSeverity)
    ensures Rank(severity) <= 1 && error.category !in {SECURITY, SYSTEM} ==> !ShouldReportError(error, severity)
    ensures ShouldReportError(error, severity) <==>
              severity == CRITICAL || error.category in {SECURITY, SYSTEM}
              || (severity == HIGH && error.category != VALIDATION)
  {
  }

  /** Raising the severity never stops an error from being reported. */
  lemma ReportMonotone(error: CategorizedError, s: ErrorSeverity, t: ErrorSeverity)
    requires Rank(s) <= Rank(t) && ShouldReportError(error, s)
    ensures ShouldReportError(error, t)
  {
  }

  /** The category's name, as Kotlin's `Enum.name`. */
  function CategoryName(c: ErrorCategory): (n: string)
    ensures |n| > 0 && forall i :: 0 <= i < |n| ==> n[i] != '_'
  {
    match c
    case NETWORK => "NETWORK"
    case DATABASE => "DATABASE"
    case VALIDATION => "VALIDATION"
    case CALCULATION => "CALCULATION"
    case SYSTEM => "SYSTEM"
    case SECURITY => "SECURITY"
    case UNKNOWN => "UNKNOWN"
  }

  /** The throwable's class name, as `javaClass.simpleName`. */
  function SimpleName(t: Throwable): string
  {
    match t
    case NetworkError => "NetworkError"
    case DatabaseError => "DatabaseError"
    case ValidationError(_) => "ValidationError"
    case CalculationError(_) => "CalculationError"
    case UnknownError => "UnknownError"
    case OutOfMemoryError => "OutOfMemoryError"
    case SecurityException => "SecurityException"
    case Other(name) => name
  }

  /**
   * `generateErrorId` as written: each `${'$'}` in the template is an escaped dollar sign, so
   * the braces that follow are plain text and the id is this one string for every error.
   */
  function ErrorIdAsWritten(error: CategorizedError, context: ErrorContext): (id: string)
  {
    "${error.category.name}_${error.originalError.javaClass.simpleName}_${context.screenName}"
  }

  /** Every error gets the same id as written. */
  lemma ErrorIdAsWrittenIsConstant(e1: CategorizedError, c1: ErrorContext, e2: CategorizedError, c2: ErrorContext)
    ensures ErrorIdAsWritten(e1, c1) == ErrorIdAsWritten(e2, c2)
  {
  }

  /** The evidently intended id: category, class name and screen joined by '_'. */
  function ErrorId(error: CategorizedError, context: ErrorContext): (id: string)
    ensures |id| > |CategoryName(error.category)| && id[|CategoryName(error.category)|] == '_'
    ensures id[..|CategoryName(error.category)|] == CategoryName(error.category)
  {
    CategoryName(error.category) + "_" + SimpleName(error.originalError) + "_" + context.screenName
  }

  lemma NamesDiffer(a: string, b: string, x: string, y: string)
    requires forall i :: 0 <= i < |a| ==> a[i] != '_'
    requires forall i :: 0 <= i < |b| ==> b[i] != '_'
    requires |x| > |a| && x[|a|] == '_' && x[..|a|] == a
    requires |y| > |b| && y[|b|] == '_' && y[..|b|] == b
    requires a != b
    ensures x != y
  {
    if |a| < |b| {
      assert y[|a|] == b[|a|];
    } else if |b| < |a| {
      assert x[|b|] == a[|b|];
    } else {
      var i :| 0 <= i < |a| && a[i] != b[i];
      assert x[i] == a[i] && y[i] == b[i];
    }
  }

  /** With the intended id, errors of different categories are never duplicates of each other. */
  lemma ErrorIdSeparatesCategories(e1: CategorizedError, c1: ErrorContext, e2: CategorizedError, c2: ErrorContext)
    requires e1.category != e2.category
    ensures ErrorId(e1, c1) != ErrorId(e2, c2)
  {
    var a, b := CategoryName(e1.category), CategoryName(e2.category);
    NamesDiffer(a, b, ErrorId(e1, c1), ErrorId(e2, c2));
  }

  /** The recent ids that survive a cleaning at `now`: those at most 10000 ms old. */
  function Cleaned(recent: map<string, int>, now: int): (m: map<string, int>)
    ensures forall k :: k in m <==> k in recent && now - recent[k] <= DUPLICATE_ERROR_THRESHOLD * 2
    ensures forall k :: k in m ==> m[k] == recent[k]
  {
    map k | k in recent && now - recent[k] <= DUPLICATE_ERROR_THRESHOLD * 2 :: recent[k]
  }

  /** An id is a duplicate when recorded less than 5000 ms before `now`. */
  predicate IsRecent(recent: map<string, int>, id: string, now: int)
  {
    id in recent && now - recent[id] < DUPLICATE_ERROR_THRESHOLD
  }

  /** The cache after a non-duplicate is recorded at `now`, cleaned at `later` when over 50 ids. */
  function Recorded(recent: map<string, int>, id: string, now: int, later: int): (m: map<string, int>)
  {
    var r := recent[id := now];
    if |r| > MAX_ERROR_CACHE_SIZE then Cleaned(r, later) else r
  }

  /** A recorded id is found as a duplicate for the next 5000 ms, when no cleaning removed it. */
  lemma RecordedIsRecent(recent: map<string, int>, id: string, now: int, later: int, t: int)
    requires later - now <= DUPLICATE_ERROR_THRESHOLD * 2
    requires now <= t < now + DUPLICATE_ERROR_THRESHOLD
    ensures IsRecent(Recorded(recent, id, now, later), id, t)
  {
  }

  class ErrorManager {
    /** Id to the time (ms) it was last recorded. */
    var recentErrors: map<string, int>

    constructor()
      ensures recentErrors == map[]
    {
      recentErrors := map[];
    }

    /**
     * `isDuplicateError`, with the clock read at `now` and, if cleaning runs, at `later`: a
     * duplicate leaves the cache untouched, so its timestamp is not refreshed.
     */
    method IsDuplicateError(errorId: string, now: int, later: int) returns (duplicate: bool)
      modifies this
      ensures duplicate <==> IsRecent(old(recentErrors), errorId, now)
      ensures duplicate ==> recentErrors == old(recentErrors)
      ensures !duplicate ==> recentErrors == Recorded(old(recentErrors), errorId, now, later)
    {
      if errorId in recentErrors && now - recentErrors[errorId] < DUPLICATE_ERROR_THRESHOLD {
        return true;
      }
      recentErrors := recentErrors[errorId := now];
      if |recentErrors| > MAX_ERROR_CACHE_SIZE {
        CleanErrorCache(later);
      }
      return false;
    }

    /** `cleanErrorCache`: collect the ids older than 10000 ms, then remove them one by one. */
    method CleanErrorCache(now: int)
      modifies this
      ensures recentErrors == Cleaned(old(recentErrors), now)
    {
      var keys := recentErrors.Keys;
      var keysToRemove: set<string> := {};
      while keys != {}
        invariant keys <= recentErrors.Keys
        invariant keysToRemove <= recentErrors.Keys
        invariant forall k :: k in recentErrors && k !in keys ==>
                    (k in keysToRemove <==> now - recentErrors[k] > DUPLICATE_ERROR_THRESHOLD * 2)
        invariant forall k :: k in keysToRemove ==> k !in keys
        decreases keys
      {
        var key :| key in keys;
        if now - recentErrors[key] > DUPLICATE_ERROR_THRESHOLD * 2 {
          keysToRemove := keysToRemove + {key};
        }
        keys := keys - {key};
      }
      ghost var start := recentErrors;
      var rest := keysToRemove;
      while rest != {}
        invariant rest <= keysToRemove
        invariant recentErrors == start - (keysToRemove - rest)
        decreases rest
      {
        var k :| k in rest;
        recentErrors := recentErrors - {k};
        rest := rest - {k};
      }
      assert recentErrors == Cleaned(start, now);
    }

    /** The common path of `handleError`, given the id of the error. */
    method Handle(id: string, error: CategorizedError, severity: ErrorSeverity, now: int, later: int)
      returns (r: ErrorHandlingResult)
      modifies this
      ensures r.Ignored? <==> IsRecent(old(recentErrors), id, now)
      ensures r.Ignored? ==> recentErrors == old(recentErrors) && r.reason == DUPLICATE_REASON
      ensures r.Handled? ==> (recentErrors == Recorded(old(recentErrors), id, now, later)
                              && r == Handled(error.category, ShouldReportError(error, severity), AttemptRecovery(error)))
    {
      var duplicate := IsDuplicateError(id, now, later);
      if duplicate {
        return Ignored(DUPLICATE_REASON);
      }
      return Handled(error.category, ShouldReportError(error, severity), AttemptRecovery(error));
    }

    /** `handleError` as written, keyed by the constant id. */
    method HandleErrorAsWritten(error: Throwable, context: ErrorContext, severity: ErrorSeverity, now: int, later: int)
      returns (r: ErrorHandlingResult)
      modifies this
      ensures var e := CategorizeError(error); var id := ErrorIdAsWritten(e, context);
              && (r.Ignored? <==> IsRecent(old(recentErrors), id, now))
              && (r.Handled? ==> r.recovery == AttemptRecovery(e) && r.reported == ShouldReportError(e, severity))
              && (r.Handled? ==> recentErrors == Recorded(old(recentErrors), id, now, later))
              && (r.Ignored? ==> recentErrors == old(recentErrors))
    {
      var e := CategorizeError(error);
      r := Handle(ErrorIdAsWritten(e, context), e, severity, now, later);
    }

    /** `handleError` with the intended id. */
    method HandleError(error: Throwable, context: ErrorContext, severity: ErrorSeverity, now: int, later: int)
      returns (r: ErrorHandlingResult)
      modifies this
      ensures var e := CategorizeError(error); var id := ErrorId(e, context);
              && (r.Ignored? <==> IsRecent(old(recentErrors), id, now))
              && (r.Handled? ==> r.recovery == AttemptRecovery(e) && r.reported == ShouldReportError(e, severity))
              && (r.Handled? ==> recentErrors == Recorded(old(recentErrors), id, now, later))
              && (r.Ignored? ==> recentErrors == old(recentErrors))
    {
      var e := CategorizeError(error);
      r := Handle(ErrorId(e, context), e, severity, now, later);
    }
  }

  /** As written, a database error one second after a network error is dropped as a duplicate. */
  method SuppressedExample() returns (first: ErrorHandlingResult, second: ErrorHandlingResult)
    ensures first.Handled? && second.Ignored?
  {
    var manager := new ErrorManager();
    first := manager.HandleErrorAsWritten(NetworkError, ErrorContext("Converter", ""), MEDIUM, 0, 0);
    second := manager.HandleErrorAsWritten(DatabaseError, ErrorContext("History", ""), HIGH, 1000, 1000);
    ErrorIdAsWrittenIsConstant(CategorizeError(NetworkError), ErrorContext("Converter", ""),
                               CategorizeError(DatabaseError), ErrorContext("History", ""));
  }

  /** With the intended id, the same two errors are both handled, and the second is reported. */
  method HandledExample() returns (first: ErrorHandlingResult, second: ErrorHandlingResult)
    ensures first.Handled? && second.Handled? && second.reported
  {
    var manager := new ErrorManager();
    first := manager.HandleError(NetworkError, ErrorContext("Converter", ""), MEDIUM, 0, 0);
    ErrorIdSeparatesCategories(CategorizeError(NetworkError), ErrorContext("Converter", ""),
                               CategorizeError(DatabaseError), ErrorContext("History", ""));
    second := manager.HandleError(DatabaseError, ErrorContext("History", ""), HIGH, 1000, 1000);
  }
}
