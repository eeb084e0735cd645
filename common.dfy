/** Shared wrappers: an optional value, JSON arrays read as sets, and the shape of a controller reply. */
module Common {

  /** A nullable value (a PHP/JSON null or an absent request field). */
  datatype Option<+T> = None | Some(value: T) {
    /** The value, or `default` when absent (Laravel's `$request->get(key, default)`). */
    function GetOr(default: T): T {
      if Some? then value else default
    }
  }

  /** The elements of a JSON array, as a set. */
  function Elems<T>(xs: seq<T>): set<T> {
    set x | x in xs
  }

  /** The index of the first element of `xs` outside `known`, or `|xs|` when every element is in it. */
  function PrimerAusente<T(==)>(xs: seq<T>, known: set<T>): (k: nat)
    ensures k <= |xs|
    ensures forall i | 0 <= i < k :: xs[i] in known
    ensures k < |xs| ==> xs[k] !in known
  {
    if xs == [] || xs[0] !in known then 0 else 1 + PrimerAusente(xs[1..], known)
  }

  /** True when some value occurs twice in the array. */
  predicate HasDuplicates<T(==)>(xs: seq<T>) {
    exists i, j :: 0 <= i < j < |xs| && xs[i] == xs[j]
  }

  /**
   * What a controller action answers. `Invalid` and `Rejected` both become HTTP 422: the first is a
   * failed `$request->validate(...)` (naming the fields whose rules failed), the second a
   * `ValidationException::withMessages` thrown by the action itself. `Refused` is an explicit
   * `response()->json([...], status)` with an error status; `NotFound` is a `findOrFail` miss;
   * `ServerError` is a database error that escaped the action.
   */
  datatype Reply<+T> =
    | Ok(value: T)
    | Created(value: T)
    | Invalid(fields: set<string>)
    | Rejected(field: string, message: string)
    | Refused(status: int, message: string)
    | NotFound
    | ServerError
  {
    /** The HTTP status code of the reply. */
    function Status(): int {
      match this
      case Ok(_) => 200
      case Created(_) => 201
      case Invalid(_) => 422
      case Rejected(_, _) => 422
      case Refused(s, _) => s
      case NotFound => 404
      case ServerError => 500
    }

    /** The same failure, carried as a reply of another payload type. */
    function Retype<U>(): (r: Reply<U>)
      requires !Ok? && !Created?
      ensures r.Status() == Status() && !r.Ok? && !r.Created?
    {
      match this
      case Invalid(f) => Invalid(f)
      case Rejected(f, m) => Rejected(f, m)
      case Refused(s, m) => Refused(s, m)
      case NotFound => NotFound
      case ServerError => ServerError
    }
  }

  /** The characters PHP's `trim` strips: space, tab, line feed, carriage return, NUL and vertical tab. */
  predicate EsEspacio(c: char) {
    c == ' ' || c == '\t' || c == '\n' || c == '\r' || c == '\0' || c == '\U{B}'
  }

  /** The first index from `i` on that does not hold whitespace, or `|s|` when there is none. */
  function Inicio(s: string, i: nat): (k: nat)
    requires i <= |s|
    ensures i <= k <= |s|
    ensures forall x | i <= x < k :: EsEspacio(s[x])
    ensures k < |s| ==> !EsEspacio(s[k])
    decreases |s| - i
  {
    if i == |s| || !EsEspacio(s[i]) then i else Inicio(s, i + 1)
  }

  /** The end of `s[lo..j]` once its trailing whitespace is dropped. */
  function Fin(s: string, lo: nat, j: nat): (k: nat)
    requires lo <= j <= |s|
    ensures lo <= k <= j
    ensures forall x | k <= x < j :: EsEspacio(s[x])
    ensures lo < k ==> !EsEspacio(s[k - 1])
    decreases j - lo
  {
    if j == lo || !EsEspacio(s[j - 1]) then j else Fin(s, lo, j - 1)
  }

  /**
   * `trim`: only whitespace is cut, from either end; what is left neither starts nor ends with it, and
   * is empty exactly when `s` is all whitespace.
   */
  function Trim(s: string): (r: string)
    ensures |r| <= |s|
    ensures r == [] || (!EsEspacio(r[0]) && !EsEspacio(r[|r| - 1]))
    ensures r == [] <==> forall k | 0 <= k < |s| :: EsEspacio(s[k])
  {
    var i := Inicio(s, 0);
    var j := Fin(s, i, |s|);
    assert (forall k | 0 <= k < |s| :: EsEspacio(s[k])) ==> i == |s|;
    s[i..j]
  }

  /** What `trim` keeps is one stretch of `s`, with only whitespace before and after it. */
  lemma TrimEsTramo(s: string)
    ensures exists i, j | 0 <= i <= j <= |s| :: && Trim(s) == s[i..j]
                                                  && (forall k | 0 <= k < i :: EsEspacio(s[k]))
                                                  && (forall k | j <= k < |s| :: EsEspacio(s[k]))
  {
    var i := Inicio(s, 0);
    var j := Fin(s, i, |s|);
    assert Trim(s) == s[i..j];
  }

  /**
   * `trim` leaves a string that neither starts nor ends with whitespace as it is, and takes one space
   * off each end of that string padded with them.
   */
  lemma TrimRecorta(s: string)
    requires s != [] && !EsEspacio(s[0]) && !EsEspacio(s[|s| - 1])
    ensures Trim(s) == s
    ensures Trim(" " + s + " ") == s
  {
    assert Inicio(s, 0) == 0 && Fin(s, 0, |s|) == |s|;
    assert s[0..|s|] == s;
    var x := " " + s + " ";
    assert x[1] == s[0] && x[|x| - 2] == s[|s| - 1];
    assert Inicio(x, 0) == Inicio(x, 1) == 1;
    assert Fin(x, 1, |x|) == Fin(x, 1, |x| - 1) == |x| - 1;
    assert x[1..|x| - 1] == s;
  }

  /**
   * Laravel's `required` rule on a string field: null fails, and so does a string that is empty once
   * trimmed.
   */
  predicate Present(s: Option<string>) {
    s.Some? && exists k | 0 <= k < |s.value| :: !EsEspacio(s.value[k])
  }

  /**
   * A string field other than a password as the controller receives it: the global `TrimStrings`
   * middleware trims it, and `ConvertEmptyStringsToNull` turns what is then empty into null.
   */
  function Entrada(s: Option<string>): (r: Option<string>)
    ensures r.Some? <==> Present(s)
    ensures r.Some? ==> r.value == Trim(s.value)
    ensures Present(r) <==> r.Some?
  {
    if s.Some? && Trim(s.value) != "" then Some(Trim(s.value)) else None
  }

  /**
   * A JSON error response sent by a middleware or by the exception handler: the status code, the
   * `error` code of the body ("" when the body has none) and its `message`.
   */
  datatype JsonError = JsonError(status: int, error: string, message: string)

  /**
   * The password hasher, opaque: `check(plain, hash)` is `Hash::check` and `make(plain)` is `Hash::make`.
   * Nothing is assumed about either.
   */
  datatype Hasher = Hasher(check: (string, string) -> bool, make: string -> string)
}
