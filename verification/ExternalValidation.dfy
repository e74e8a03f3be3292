/** Validation of a declared call list (pkg/external/validate.go), which gives the runner the
    distinct names and parseable durations it relies on. */
module ExternalValidation {
  import opened Common
  import opened ExternalCalls

  datatype CallError =
    | UnknownProtocol | UrlRequired | QueryRequired | HttpOnlyFields
    | InvalidMethod | QueryUnused | PoolSizeUnused | BadCacheFor | BadTimeout
    | AuthSourceMissing | AuthSourceAmbiguous | SecretNameMissing | SecretNamespaceMissing | SecretKeyMissing

  datatype ListError = EmptyName(index: nat) | DuplicateName(name: string) | InvalidCall(index: nat, error: CallError)

  const QUERYING := {"prometheus", "redis", "postgres", "mongo", "kafka"}
  const STREAMING := {"grpc", "nats", "mqtt"}
  const METHODS := {"GET", "POST", "PUT", "PATCH", "DELETE", "HEAD"}

  predicate IsHttp(protocol: string) { protocol == "" || protocol == "http" }

  predicate UsesHttpFields(call: Call) {
    call.body != "" || call.method_ != "" || |call.headers| > 0 || call.expectedStatus != 0
  }

  function ValidateHttp(call: Call): Option<CallError> {
    if call.method_ != "" && call.method_ !in METHODS then Some(InvalidMethod)
    else if call.query != "" then Some(QueryUnused)
    else if call.poolSize != 0 then Some(PoolSizeUnused)
    else None
  }

  function ValidateFields(call: Call): Option<CallError> {
    if IsHttp(call.protocol) then ValidateHttp(call)
    else if call.protocol in QUERYING && call.query == "" then Some(QueryRequired)
    else if UsesHttpFields(call) then Some(HttpOnlyFields)
    else None
  }

  function ValidateAuth(auth: Auth): Option<CallError> {
    if auth.secretRef.None? && auth.env == "" then Some(AuthSourceMissing)
    else if auth.secretRef.Some? && auth.env != "" then Some(AuthSourceAmbiguous)
    else if auth.secretRef.None? then None
    else if auth.secretRef.value.name == "" then Some(SecretNameMissing)
    else if auth.secretRef.value.namespace == "" then Some(SecretNamespaceMissing)
    else if auth.secretRef.value.key == "" then Some(SecretKeyMissing)
    else None
  }

  function ValidateCall(ttl: string -> Result<int>, call: Call): Option<CallError> {
    if !IsHttp(call.protocol) && call.protocol !in QUERYING && call.protocol !in STREAMING then Some(UnknownProtocol)
    else if call.url == "" then Some(UrlRequired)
    else if ValidateFields(call).Some? then ValidateFields(call)
    else if call.cacheFor != "" && ttl(call.cacheFor).Err? then Some(BadCacheFor)
    else if call.timeout != "" && ttl(call.timeout).Err? then Some(BadTimeout)
    else if call.auth.Some? then ValidateAuth(call.auth.value)
    else None
  }

  /** What can be said against a call, whatever else is wrong with it. */
  predicate Complaint(ttl: string -> Result<int>, call: Call, e: CallError) {
    var http := call.protocol == "" || call.protocol == "http";
    match e
    case UnknownProtocol =>
      call.protocol !in ["", "http", "prometheus", "redis", "postgres", "mongo", "grpc", "kafka", "nats", "mqtt"]
    case UrlRequired => |call.url| == 0
    case InvalidMethod =>
      http && |call.method_| > 0 && call.method_ !in ["GET", "POST", "PUT", "PATCH", "DELETE", "HEAD"]
    case QueryUnused => http && |call.query| > 0
    case PoolSizeUnused => http && call.poolSize != 0
    case QueryRequired =>
      call.protocol in ["prometheus", "redis", "postgres", "mongo", "kafka"] && |call.query| == 0
    case HttpOnlyFields =>
      !http && (|call.body| > 0 || |call.method_| > 0 || call.headers != map[] || call.expectedStatus != 0)
    case BadCacheFor => |call.cacheFor| > 0 && ttl(call.cacheFor).Err?
    case BadTimeout => |call.timeout| > 0 && ttl(call.timeout).Err?
    case AuthSourceMissing => call.auth.Some? && call.auth.value.secretRef.None? && |call.auth.value.env| == 0
    case AuthSourceAmbiguous => call.auth.Some? && call.auth.value.secretRef.Some? && |call.auth.value.env| > 0
    case SecretNameMissing =>
      call.auth.Some? && call.auth.value.secretRef.Some? && |call.auth.value.secretRef.value.name| == 0
    case SecretNamespaceMissing =>
      call.auth.Some? && call.auth.value.secretRef.Some? && |call.auth.value.secretRef.value.namespace| == 0
    case SecretKeyMissing =>
      call.auth.Some? && call.auth.value.secretRef.Some? && |call.auth.value.secretRef.value.key| == 0
  }

  /** The order in which they are reported. */
  const COMPLAINTS: seq<CallError> :=
    [UnknownProtocol, UrlRequired, InvalidMethod, QueryUnused, PoolSizeUnused, QueryRequired, HttpOnlyFields,
     BadCacheFor, BadTimeout, AuthSourceMissing, AuthSourceAmbiguous,
     SecretNameMissing, SecretNamespaceMissing, SecretKeyMissing]

  ghost predicate FirstComplaint(ttl: string -> Result<int>, call: Call, i: nat) {
    && i < |COMPLAINTS| && Complaint(ttl, call, COMPLAINTS[i])
    && forall j | 0 <= j < i :: !Complaint(ttl, call, COMPLAINTS[j])
  }

  function Place(e: CallError): nat {
    match e
    case UnknownProtocol => 0
    case UrlRequired => 1
    case InvalidMethod => 2
    case QueryUnused => 3
    case PoolSizeUnused => 4
    case QueryRequired => 5
    case HttpOnlyFields => 6
    case BadCacheFor => 7
    case BadTimeout => 8
    case AuthSourceMissing => 9
    case AuthSourceAmbiguous => 10
    case SecretNameMissing => 11
    case SecretNamespaceMissing => 12
    case SecretKeyMissing => 13
  }

  lemma NoComplaintIff(ttl: string -> Result<int>, call: Call)
    ensures ValidateCall(ttl, call).None? <==> forall e :: !Complaint(ttl, call, e)
  {
    if ValidateCall(ttl, call).None? {
      forall e ensures !Complaint(ttl, call, e) {
      }
    } else {
      ReportedIsAComplaint(ttl, call);
    }
  }

  lemma ReportedIsAComplaint(ttl: string -> Result<int>, call: Call)
    requires ValidateCall(ttl, call).Some?
    ensures Complaint(ttl, call, ValidateCall(ttl, call).value)
  {
  }

  lemma PlaceIs(e: CallError)
    ensures Place(e) < |COMPLAINTS| && COMPLAINTS[Place(e)] == e
  {
  }

  lemma EarlierIsNoComplaint(ttl: string -> Result<int>, call: Call, e: CallError)
    requires ValidateCall(ttl, call).Some? && Place(e) < Place(ValidateCall(ttl, call).value)
    ensures !Complaint(ttl, call, e)
  {
  }

  /** The first complaint is reported, and a call without one is valid. */
  lemma FirstComplaintIsReported(ttl: string -> Result<int>, call: Call)
    ensures ValidateCall(ttl, call).None? <==> forall e :: !Complaint(ttl, call, e)
    ensures forall i: nat | FirstComplaint(ttl, call, i) :: ValidateCall(ttl, call) == Some(COMPLAINTS[i])
  {
    NoComplaintIff(ttl, call);
    forall i: nat | FirstComplaint(ttl, call, i) ensures ValidateCall(ttl, call) == Some(COMPLAINTS[i]) {
      ReportedIsFirst(ttl, call, i);
    }
  }

  lemma ReportedIsFirst(ttl: string -> Result<int>, call: Call, i: nat)
    requires FirstComplaint(ttl, call, i)
    ensures ValidateCall(ttl, call) == Some(COMPLAINTS[i])
  {
    NoComplaintIff(ttl, call);
    var e := ValidateCall(ttl, call).value;
    ReportedIsAComplaint(ttl, call);
    PlaceIs(e);
    PlaceIs(COMPLAINTS[i]);
    hide Complaint, ValidateCall;
    PlaceAt(i);
    if Place(COMPLAINTS[i]) < Place(e) { EarlierIsNoComplaint(ttl, call, COMPLAINTS[i]); }
  }

  lemma PlaceAt(i: nat)
    requires i < |COMPLAINTS|
    ensures Place(COMPLAINTS[i]) == i
  {
  }

  /** What is wrong with call i, looking only at it and at the calls before it. */
  function Fault(ttl: string -> Result<int>, calls: seq<Call>, i: nat): Option<ListError>
    requires i < |calls|
  {
    if calls[i].name == "" then Some(EmptyName(i))
    else if exists j :: 0 <= j < i && calls[j].name == calls[i].name then Some(DuplicateName(calls[i].name))
    else if ValidateCall(ttl, calls[i]).Some? then Some(InvalidCall(i, ValidateCall(ttl, calls[i]).value))
    else None
  }

  /** A call without a name is reported by its place, one whose name an earlier call has by the name,
      and any other by its place and its first complaint. */
  lemma FaultIs(ttl: string -> Result<int>, calls: seq<Call>, i: nat)
    requires i < |calls|
    ensures |calls[i].name| == 0 ==> Fault(ttl, calls, i) == Some(EmptyName(i))
    ensures |calls[i].name| > 0 && (exists j :: 0 <= j < i && calls[j].name == calls[i].name) ==>
              Fault(ttl, calls, i) == Some(DuplicateName(calls[i].name))
    ensures |calls[i].name| > 0 && (forall j | 0 <= j < i :: calls[j].name != calls[i].name) ==>
              && (Fault(ttl, calls, i).None? <==> forall e :: !Complaint(ttl, calls[i], e))
              && forall n: nat | FirstComplaint(ttl, calls[i], n) ::
                   Fault(ttl, calls, i) == Some(InvalidCall(i, COMPLAINTS[n]))
  {
    FirstComplaintIsReported(ttl, calls[i]);
    hide ValidateCall, Complaint, FirstComplaint;
  }

  predicate Acceptable(ttl: string -> Result<int>, calls: seq<Call>) {
    && DistinctNames(calls)
    && forall i :: 0 <= i < |calls| ==> calls[i].name != "" && ValidateCall(ttl, calls[i]).None?
  }

  lemma AcceptableIffFaultless(ttl: string -> Result<int>, calls: seq<Call>)
    ensures Acceptable(ttl, calls) <==> forall i: nat | i < |calls| :: Fault(ttl, calls, i).None?
  {
    if forall i: nat | i < |calls| :: Fault(ttl, calls, i).None? {
      forall i, j | 0 <= i < j < |calls| ensures calls[i].name != calls[j].name {
        assert Fault(ttl, calls, j).None?;
      }
      forall i | 0 <= i < |calls| ensures calls[i].name != "" && ValidateCall(ttl, calls[i]).None? {
        assert Fault(ttl, calls, i).None?;
      }
    }
  }

  /** The first faulty call decides; a list without one is accepted. */
  method ValidateCalls(ttl: string -> Result<int>, calls: seq<Call>) returns (err: Option<ListError>)
    ensures err.Some? ==> exists i: nat | i < |calls| ::
              err == Fault(ttl, calls, i) && forall j: nat | j < i :: Fault(ttl, calls, j).None?
    ensures err.None? <==> Acceptable(ttl, calls)
  {
    hide ValidateCall, Acceptable;
    AcceptableIffFaultless(ttl, calls);
    var seen: set<string> := {};
    var i := 0;
    while i < |calls|
      invariant 0 <= i <= |calls|
      invariant forall name :: name in seen <==> exists j :: 0 <= j < i && calls[j].name == name
      invariant forall j: nat | j < i :: Fault(ttl, calls, j).None?
    {
      var call := calls[i];
      ghost var fault := Fault(ttl, calls, i);
      if call.name == "" {
        assert fault == Some(EmptyName(i));
        return Some(EmptyName(i));
      }
      if call.name in seen {
        assert fault == Some(DuplicateName(call.name));
        return Some(DuplicateName(call.name));
      }
      seen := seen + {call.name};
      var problem := ValidateCall(ttl, call);
      if problem.Some? {
        assert fault == Some(InvalidCall(i, problem.value));
        return Some(InvalidCall(i, problem.value));
      }
      i := i + 1;
    }
    err := None;
  }

  /** In an accepted list every result of a prefix survives to the end of the run, and every call
      that declares cacheFor has a usable duration. */
  lemma AcceptedListsRunClean(env: Env, gvk: string, data: Data, calls: seq<Call>, at: seq<int>, k: nat)
    requires k <= |calls| == |at| && Acceptable(env.ttl, calls)
    ensures forall name <- FetchRun(env, gvk, data, calls[..k], at[..k]).progress.results ::
              && name in FetchRun(env, gvk, data, calls, at).progress.results
              && FetchRun(env, gvk, data, calls, at).progress.results[name]
                 == FetchRun(env, gvk, data, calls[..k], at[..k]).progress.results[name]
    ensures forall i | 0 <= i < |calls| && calls[i].cacheFor != "" :: env.ttl(calls[i].cacheFor).Ok?
  {
    ResultsAreNeverOverwritten(env, gvk, data, calls, at, k);
  }
}
