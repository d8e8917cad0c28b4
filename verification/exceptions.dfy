/**
 The library's exception value (include/Exception.h): a record of four
 strings, the class-name composition performed by the
 DECLARE_LIBTHROCKET_EXCEPTION_(SUB)CLASS macros, the status-code variant,
 and the socket error taxonomy declared with those macros in Socket.h.
 */
module Exceptions {
  import opened Basics
  import Decimal

  const Namespace: string := "libthrocket"

  datatype Exception = Exception(cls: string, thrownBy: string, detail: string, stackTrace: string)

  /** `Exception(strClass, strThrownBy, strDetail)`: the stack-trace capture is
      commented out in the source, so the trace starts empty. */
  function NewException(cls: string, thrownBy: string := "", detail: string := ""): (e: Exception)
    ensures e.cls == cls && e.thrownBy == thrownBy && e.detail == detail
    ensures e.stackTrace == ""
  {
    Exception(cls, thrownBy, detail, "")
  }

  /** The copy constructor re-reads class, thrown-by and detail through the
      getters; the stack trace is not copied. */
  function CopyException(e: Exception): (c: Exception)
    ensures c.cls == e.cls && c.thrownBy == e.thrownBy && c.detail == e.detail
    ensures c.stackTrace == ""
  {
    NewException(e.cls, e.thrownBy, e.detail)
  }

  function SetClass(e: Exception, s: string): Exception { e.(cls := s) }
  function ClearClass(e: Exception): Exception { e.(cls := "") }
  function SetThrownBy(e: Exception, s: string): Exception { e.(thrownBy := s) }
  function ClearThrownBy(e: Exception): Exception { e.(thrownBy := "") }
  function SetDetail(e: Exception, s: string): Exception { e.(detail := s) }
  function ClearDetail(e: Exception): Exception { e.(detail := "") }
  function SetStackTrace(e: Exception, s: string): Exception { e.(stackTrace := s) }
  function ClearStackTrace(e: Exception): Exception { e.(stackTrace := "") }

  /** A copy equals its original exactly when the original carries no stack trace. */
  lemma CopyLosesOnlyStackTrace(e: Exception)
    ensures CopyException(e) == e <==> e.stackTrace == ""
    ensures CopyException(e) == ClearStackTrace(e)
  {
  }

  /** Each setter changes its own field and no other; each Clear is the setter with "". */
  lemma SettersAreIndependent(e: Exception, s: string)
    ensures SetClass(e, s).cls == s && SetClass(e, s).(cls := e.cls) == e
    ensures SetThrownBy(e, s).thrownBy == s && SetThrownBy(e, s).(thrownBy := e.thrownBy) == e
    ensures SetDetail(e, s).detail == s && SetDetail(e, s).(detail := e.detail) == e
    ensures SetStackTrace(e, s).stackTrace == s && SetStackTrace(e, s).(stackTrace := e.stackTrace) == e
    ensures ClearClass(e) == SetClass(e, "") && ClearThrownBy(e) == SetThrownBy(e, "")
    ensures ClearDetail(e) == SetDetail(e, "") && ClearStackTrace(e) == SetStackTrace(e, "")
  {
  }

  /** Setting a field twice keeps only the second value; Clear is idempotent. */
  lemma SetterLastWins(e: Exception, s: string, t: string)
    ensures SetDetail(SetDetail(e, s), t) == SetDetail(e, t)
    ensures SetThrownBy(SetThrownBy(e, s), t) == SetThrownBy(e, t)
    ensures SetClass(SetClass(e, s), t) == SetClass(e, t)
    ensures ClearDetail(ClearDetail(e)) == ClearDetail(e)
  {
  }

  /** Class name given by the `t##Exception(strThrownBy, strDetail)` constructor
      of DECLARE_LIBTHROCKET_EXCEPTION_CLASS(ns, t): `ns::` followed by the
      constructor's own name, `t` + "Exception". */
  function ClassName(ns: string, t: string): string
  {
    ns + "::" + t + "Exception"
  }

  /** Reads a class name back: the part between `ns::` and the trailing
      "Exception". */
  function StripClassName(ns: string, cls: string): (r: Option<string>)
    ensures r.Some? ==> ClassName(ns, r.value) == cls
  {
    var n := |ns| + 2;
    if |cls| >= n + 9 && cls[..n] == ns + "::" && cls[|cls| - 9..] == "Exception" then
      var t := cls[n..|cls| - 9];
      assert cls == cls[..n] + t + cls[|cls| - 9..];
      Some(t)
    else None
  }

  /** Every class name reads back to the name it was built from. */
  lemma ClassNameStrips(ns: string, t: string)
    ensures StripClassName(ns, ClassName(ns, t)) == Some(t)
  {
    var cls := ClassName(ns, t);
    var n := |ns| + 2;
    assert cls[..n] == ns + "::";
    assert cls[|cls| - 9..] == "Exception";
    assert cls[n..|cls| - 9] == t;
  }

  /** Class name given by DECLARE_LIBTHROCKET_EXCEPTION_SUBCLASS(ns, t, st): the
      subclass passes `#t#st` to the parent's three-argument constructor,
      which prefixes `ns::` and appends "Exception"; so the name reads back to
      the two names joined. */
  function SubclassName(ns: string, t: string, st: string): (r: string)
    ensures StripClassName(ns, r) == Some(t + st)
  {
    ClassNameStrips(ns, t + st);
    ns + "::" + (t + st) + "Exception"
  }

  /** Reads the namespace prefix `ns::` off a class name. */
  function StripNamespace(ns: string, name: string): (r: Option<string>)
    ensures r.Some? ==> ns + "::" + r.value == name
  {
    var n := |ns| + 2;
    if |name| >= n && name[..n] == ns + "::" then
      assert name == name[..n] + name[n..];
      Some(name[n..])
    else None
  }

  /** Class name given by the three-argument constructor of
      DECLARE_LIBTHROCKET_STATUS_CODE_EXCEPTION_SUBCLASS(ns, t): `ns::` and
      the class given, with no "Exception" appended, so the namespace is all
      that reads off it. */
  function StatusCodeClassName(ns: string, cls: string): (r: string)
    ensures StripNamespace(ns, r) == Some(cls)
  {
    var r := ns + "::" + cls;
    assert r[..|ns| + 2] == ns + "::" && r[|ns| + 2..] == cls;
    r
  }

  /** The two-argument constructor passes its own name, `t` + "Exception",
      as the class, so it carries the same name as a plain subclass would. */
  lemma StatusCodeSelfNamed(ns: string, t: string)
    ensures StatusCodeClassName(ns, t + "Exception") == ClassName(ns, t)
    ensures StripClassName(ns, StatusCodeClassName(ns, t + "Exception")) == Some(t)
  {
    ClassNameStrips(ns, t);
  }

  datatype StatusCodeException = StatusCodeException(base: Exception, statusCode: int)

  function NewStatusCodeException(cls: string, thrownBy: string, statusCode: int, detail: string): (e: StatusCodeException)
    ensures e.base == NewException(cls, thrownBy, detail)
    ensures GetStatusCode(e) == statusCode
  {
    StatusCodeException(NewException(cls, thrownBy, detail), statusCode)
  }

  function GetStatusCode(e: StatusCodeException): int
  {
    e.statusCode
  }

  /** `LIBTHROCKET_THROWN_BY`: function@file:line. */
  function ThrownBy(func: string, file: string, line: nat): (r: string)
    ensures |r| > |func| + |file| + 1
    ensures r[..|func|] == func && r[|func|] == '@'
  {
    func + "@" + file + ":" + Decimal.DecimalString(line)
  }

  /** Reads a thrower string back: the function before the first '@', the
      file up to the last ':', and the line number after it. */
  function ParseThrownBy(s: string): (r: Option<(string, string, nat)>)
    ensures r.Some? ==> '@' !in r.value.0
  {
    match SplitFirst(s, '@')
    case None => None
    case Some((func, rest)) =>
      match SplitLast(rest, ':')
      case None => None
      case Some((file, digits)) =>
        match Decimal.ParseDecimal(digits)
        case None => None
        case Some(line) => Some((func, file, line))
  }

  /** A thrower string reads back to its function, file and line, whatever
      the file name holds; function names carry no '@'. */
  lemma ThrownByParses(func: string, file: string, line: nat)
    requires '@' !in func
    ensures ParseThrownBy(ThrownBy(func, file, line)) == Some((func, file, line))
  {
    var d := Decimal.DecimalString(line);
    assert ThrownBy(func, file, line) == func + ['@'] + (file + [':'] + d);
    SplitFirstJoin(func, '@', file + [':'] + d);
    assert ':' !in d by {
      assert forall i :: 0 <= i < |d| ==> Decimal.IsDigit(d[i]);
    }
    SplitLastJoin(file, ':', d);
    Decimal.ParseDecimalString(line);
  }

  /** The socket exception subclasses declared in Socket.h. */
  datatype SocketKind = Sys | Bind | Init | Param | Connect | Timeout

  function KindName(k: SocketKind): string
  {
    match k
    case Sys => "Sys"
    case Bind => "Bind"
    case Init => "Init"
    case Param => "Param"
    case Connect => "Connect"
    case Timeout => "Timeout"
  }

  /** Recovers a kind from its name. */
  function KindOfName(name: string): (r: Option<SocketKind>)
    ensures r.Some? ==> name == KindName(r.value)
  {
    if name == "Sys" then Some(Sys)
    else if name == "Bind" then Some(Bind)
    else if name == "Init" then Some(Init)
    else if name == "Param" then Some(Param)
    else if name == "Connect" then Some(Connect)
    else if name == "Timeout" then Some(Timeout)
    else None
  }

  /** `libthrocket::Socket<Kind>Exception`: the class name reads back to its
      kind. */
  function SocketClass(k: SocketKind): (r: string)
    ensures KindOfClass(r) == Some(k)
  {
    SocketSubclassReads(k);
    SubclassName(Namespace, "Socket", KindName(k))
  }

  /** The subclass name of kind k reads back to k. */
  lemma SocketSubclassReads(k: SocketKind)
    ensures KindOfClass(SubclassName(Namespace, "Socket", KindName(k))) == Some(k)
  {
    var m := "Socket" + KindName(k);
    assert StripClassName(Namespace, SubclassName(Namespace, "Socket", KindName(k))) == Some(m);
    assert m[..6] == "Socket" && m[6..] == KindName(k);
    assert KindOfName(KindName(k)) == Some(k) by {
      match k
      case Sys =>
      case Bind =>
      case Init =>
      case Param =>
      case Connect =>
      case Timeout =>
    }
  }

  /** Recovers the kind from a class name: the namespace, "Socket", a kind
      name and "Exception", in that order; the partner of SocketClass. */
  function KindOfClass(cls: string): Option<SocketKind>
  {
    match StripClassName(Namespace, cls)
    case None => None
    case Some(m) => if |m| >= 6 && m[..6] == "Socket" then KindOfName(m[6..]) else None
  }

  /** A class name reads as kind k exactly when it is k's class name, so
      catching by class name tells every kind apart. */
  lemma KindOfClassExact(cls: string, k: SocketKind)
    ensures KindOfClass(cls) == Some(k) <==> cls == SocketClass(k)
  {
    if KindOfClass(cls) == Some(k) {
      var m := StripClassName(Namespace, cls).value;
      assert m == "Socket" + m[6..];
      assert cls == ClassName(Namespace, "Socket" + KindName(k));
    }
  }

  /** The exception a socket operation throws for a fault of kind k. */
  function SocketException(k: SocketKind, thrownBy: string, detail: string): (e: Exception)
    ensures KindOfClass(e.cls) == Some(k)
    ensures e.thrownBy == thrownBy && e.detail == detail && e.stackTrace == ""
  {
    NewException(SocketClass(k), thrownBy, detail)
  }

  /** The example the macros are written for. */
  lemma ParamClassName()
    ensures SocketClass(Param) == "libthrocket::SocketParamException"
  {
    assert KindName(Param) == "Param";
  }

  lemma SocketBaseClassName()
    ensures ClassName(Namespace, "Socket") == "libthrocket::SocketException"
  {
  }
}
