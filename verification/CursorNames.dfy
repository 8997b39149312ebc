/** The cursor names of a connection: a set of names beside a map from statements to names. */
module CursorNameModel {
  import opened OdbcTypes
  import opened TextUtil
  import opened ChunkedRead
  import opened ApplicationBuffers

  /** A statement's handle. */
  type Handle = nat

  const CURSOR_NAME_MAX_LENGTH := 18
  /** The length that says: up to the terminator. */
  const SQL_NTS := -3
  const RESERVED := "SQL_CUR"

  // The request

  /** The name in the caller's memory; a length of SQL_NTS or more than there is goes to the terminator. */
  function NameIn(memory: string, nameLen: int): string {
    if nameLen == SQL_NTS || nameLen > |memory| then CString(memory)
    else if nameLen > 0 then CString(memory[..nameLen])
    else ""
  }

  predicate Reserved(name: string) {
    |name| >= |RESERVED| && ToUpper(name[..|RESERVED|]) == RESERVED
  }

  /** A request to name a statement, or the end of one. */
  datatype Request = SetName(stmt: Handle, memory: string, nameLen: int) | Drop(stmt: Handle)

  // What the names of a connection mean

  /** The map alone says which live statement has which name. */
  type Naming = map<Handle, string>

  predicate Taken(naming: Naming, name: string) {
    exists stmt :: stmt in naming && naming[stmt] == name
  }

  predicate Accepts(naming: Naming, memory: string, nameLen: int) {
    var name := NameIn(memory, nameLen);
    nameLen <= CURSOR_NAME_MAX_LENGTH && !Reserved(name) && !Taken(naming, name)
  }

  function After(naming: Naming, request: Request): Naming {
    match request
    case SetName(stmt, memory, nameLen) =>
      if Accepts(naming, memory, nameLen) then naming[stmt := NameIn(memory, nameLen)] else naming
    case Drop(stmt) => naming - {stmt}
  }

  predicate Injective(naming: Naming) {
    forall a, b | a in naming && b in naming && naming[a] == naming[b] :: a == b
  }

  /** The set of names agrees with the map: it is its range, and no two statements share a name. */
  ghost predicate Agree(names: set<string>, naming: Naming) {
    names == naming.Values && Injective(naming)
  }

  lemma RangeAfterNaming(naming: Naming, stmt: Handle, name: string)
    requires Injective(naming) && !Taken(naming, name)
    ensures
      var rest := if stmt in naming then naming.Values - {naming[stmt]} else naming.Values;
      naming[stmt := name].Values == rest + {name} && Injective(naming[stmt := name])
  {
    var after := naming[stmt := name];
    forall n ensures
      n in after.Values <==> n == name || (n in naming.Values && (stmt in naming ==> n != naming[stmt]))
    {
      if n in naming.Values {
        var s :| s in naming && naming[s] == n;
        assert s != stmt ==> s in after && after[s] == n;
      }
      assert stmt in after && after[stmt] == name;
    }
  }

  lemma RangeAfterDrop(naming: Naming, stmt: Handle)
    requires Injective(naming) && stmt in naming
    ensures (naming - {stmt}).Values == naming.Values - {naming[stmt]} && Injective(naming - {stmt})
  {
    var after := naming - {stmt};
    forall n ensures n in after.Values <==> n in naming.Values && n != naming[stmt] {
      if n in naming.Values {
        var s :| s in naming && naming[s] == n;
        assert s != stmt ==> s in after && after[s] == n;
      }
    }
  }

  // Runs

  function AfterAll(requests: seq<Request>): Naming {
    if requests == [] then map[]
    else After(AfterAll(requests[..|requests| - 1]), requests[|requests| - 1])
  }

  /** After every run of requests no two statements share a name. */
  lemma {:induction false} RunsKeepNamesApart(requests: seq<Request>)
    ensures Injective(AfterAll(requests))
    decreases |requests|
  {
    if requests != [] {
      var n := |requests| - 1;
      RunsKeepNamesApart(requests[..n]);
      var naming := AfterAll(requests[..n]);
      match requests[n]
      case SetName(stmt, memory, nameLen) =>
        if Accepts(naming, memory, nameLen) {
          RangeAfterNaming(naming, stmt, NameIn(memory, nameLen));
        }
      case Drop(stmt) =>
    }
  }

  /** No run stores a reserved name. */
  lemma {:induction false} RunsKeepNamesUnreserved(requests: seq<Request>, stmt: Handle)
    requires stmt in AfterAll(requests)
    ensures !Reserved(AfterAll(requests)[stmt])
    decreases |requests|
  {
    var n := |requests| - 1;
    if stmt in AfterAll(requests[..n]) {
      RunsKeepNamesUnreserved(requests[..n], stmt);
    }
  }

  lemma FreedName(naming: Naming, request: Request)
    requires Injective(naming) && request.stmt in naming
    requires request.SetName? ==> Accepts(naming, request.memory, request.nameLen)
    ensures !Taken(After(naming, request), naming[request.stmt])
  {
  }

  /**
    After every run a name in use is refused to every statement, its own included; once it is replaced or
    its statement is dropped, the same request is accepted.
  */
  lemma NameIsFreedAgain(requests: seq<Request>, request: Request, memory: string, nameLen: int)
    requires request.stmt in AfterAll(requests) && nameLen <= CURSOR_NAME_MAX_LENGTH
    requires request.SetName? ==> Accepts(AfterAll(requests), request.memory, request.nameLen)
    requires NameIn(memory, nameLen) == AfterAll(requests)[request.stmt]
    ensures !Accepts(AfterAll(requests), memory, nameLen)
    ensures Accepts(AfterAll(requests + [request]), memory, nameLen)
  {
    RunsKeepNamesApart(requests);
    RunsKeepNamesUnreserved(requests, request.stmt);
    FreedName(AfterAll(requests), request);
    assert (requests + [request])[..|requests|] == requests;
  }

  /** A name without NUL comes in whole, with its length or with its terminator behind it. */
  lemma NameComesWhole(name: string, rest: string)
    requires name != "" && '\0' !in name
    ensures NameIn(name + rest, |name|) == name
    ensures NameIn(name + ['\0'] + rest, SQL_NTS) == name
  {
    CStringKeeps(name);
    CStringOfWritten(name, rest);
    assert (name + rest)[..|name|] == name;
  }

  /** A name is reserved if it begins with sql_cur in any mixture of cases. */
  lemma ReservedExactly(name: string)
    ensures Reserved(name) <==> |name| >= 7 && SameText(name[..7], "sql_cur")
  {
    assert ToUpper("sql_cur") == RESERVED;
    if |name| >= 7 {
      UpperAgrees(name[..7], "sql_cur");
    }
  }

  /** A name given with its length is stored, unless it is too long, reserved, or another statement's or its own. */
  lemma GivenNameIsStored(requests: seq<Request>, stmt: Handle, name: string, rest: string)
    requires name != "" && '\0' !in name
    ensures
      var naming := AfterAll(requests);
      var after := AfterAll(requests + [SetName(stmt, name + rest, |name|)]);
      if |name| <= 18 && !(|name| >= 7 && SameText(name[..7], "sql_cur")) && name !in naming.Values
      then after == naming[stmt := name] else after == naming
  {
    NameComesWhole(name, rest);
    ReservedExactly(name);
    var naming := AfterAll(requests);
    assert (requests + [SetName(stmt, name + rest, |name|)])[..|requests|] == requests;
    assert Taken(naming, name) <==> name in naming.Values;
  }

  /** The limit binds exactly the names whose length is given. */
  lemma LimitBindsGivenLengths(naming: Naming, memory: string, nameLen: int)
    requires |CString(memory)| > CURSOR_NAME_MAX_LENGTH && NameIn(memory, nameLen) == CString(memory)
    requires !Reserved(CString(memory)) && !Taken(naming, CString(memory))
    ensures Accepts(naming, memory, nameLen) <==> nameLen == SQL_NTS
  {
    CStringKeeps(memory);
    if nameLen > 0 && nameLen <= |memory| {
      CStringKeeps(memory[..nameLen]);
    }
  }

  ghost predicate LengthsGiven(requests: seq<Request>) {
    forall i | 0 <= i < |requests| :: requests[i].SetName? ==> requests[i].nameLen != SQL_NTS
  }

  /** If every length was given, every name fits the limit, and a buffer of that size shows it whole. */
  lemma {:induction false} GivenLengthsKeepNamesShort(requests: seq<Request>, stmt: Handle)
    requires LengthsGiven(requests) && stmt in AfterAll(requests)
    ensures |AfterAll(requests)[stmt]| <= CURSOR_NAME_MAX_LENGTH
    decreases |requests|
  {
    var n := |requests| - 1;
    if requests[n].SetName? {
      NameWithinLength(requests[n].memory, requests[n].nameLen);
    }
    if stmt in AfterAll(requests[..n]) {
      GivenLengthsKeepNamesShort(requests[..n], stmt);
    }
  }

  lemma NameWithinLength(memory: string, nameLen: int)
    requires nameLen != SQL_NTS
    ensures |NameIn(memory, nameLen)| <= if nameLen > 0 then nameLen else 0
  {
    CStringKeeps(memory);
    if 0 < nameLen <= |memory| {
      CStringKeeps(memory[..nameLen]);
    }
  }

  /** What the application gets to see of a name: nothing is written where there is no room for a character. */
  function Shown(name: string, nameBufLen: nat): Option<string> {
    if nameBufLen == 0 then None else Some(name[..Min(|name|, nameBufLen)])
  }

  lemma WholeCharactersFit(size: nat, nameBufLen: nat)
    requires size == 2 || size == 4
    ensures (nameBufLen + 1) * size % size == 0 && (nameBufLen + 1) * size / size == nameBufLen + 1
    ensures forall n: nat :: n * size / size == n
  {
  }

  function NameOf(naming: Naming, stmt: Handle): string {
    if stmt in naming then naming[stmt] else ""
  }

  class Connection {
    var cursorNames: set<string>
    var cursorNameMap: Naming

    ghost predicate Valid()
      reads this
    {
      Agree(cursorNames, cursorNameMap)
    }

    constructor ()
      ensures Valid() && cursorNameMap == map[]
    {
      cursorNames, cursorNameMap := {}, map[];
    }

    method GetCursorName(stmt: Handle) returns (name: string)
      ensures name == NameOf(cursorNameMap, stmt)
    {
      if stmt in cursorNameMap {
        return cursorNameMap[stmt];
      }
      return "";
    }

    method CursorNameExists(name: string) returns (exists_: bool)
      requires Valid()
      ensures exists_ <==> Taken(cursorNameMap, name)
    {
      exists_ := name in cursorNames;
    }

    method AddCursorName(stmt: Handle, name: string)
      requires Valid() && !Taken(cursorNameMap, name)
      modifies this
      ensures Valid() && cursorNameMap == old(cursorNameMap)[stmt := name]
    {
      RangeAfterNaming(cursorNameMap, stmt, name);
      if stmt in cursorNameMap {
        cursorNames := cursorNames - {cursorNameMap[stmt]};
      }
      cursorNameMap := cursorNameMap[stmt := name];
      cursorNames := cursorNames + {name};
    }

    method RemoveCursorName(stmt: Handle)
      requires Valid()
      modifies this
      ensures Valid() && cursorNameMap == After(old(cursorNameMap), Drop(stmt))
    {
      if stmt in cursorNameMap {
        RangeAfterDrop(cursorNameMap, stmt);
        cursorNames := cursorNames - {cursorNameMap[stmt]};
        cursorNameMap := cursorNameMap - {stmt};
      }
    }

    /** A statement asks for a name. */
    method SetCursorName(stmt: Handle, memory: string, nameLen: int) returns (result: SqlResult)
      requires Valid()
      modifies this
      ensures Valid() && cursorNameMap == After(old(cursorNameMap), SetName(stmt, memory, nameLen))
      ensures result == if Accepts(old(cursorNameMap), memory, nameLen) then Success else Error
    {
      if nameLen > CURSOR_NAME_MAX_LENGTH {
        return Error;
      }
      var name := NameIn(memory, nameLen);
      if |name| >= |RESERVED| && ToUpper(name[..|RESERVED|]) == RESERVED {
        return Error;
      }
      var taken := CursorNameExists(name);
      if taken {
        return Error;
      }
      AddCursorName(stmt, name);
      return Success;
    }

    /**
      A statement reads its name back: whole and with success exactly if it fits, else cut and with a
      warning. Without room for a character only its length is told, and that counts as success.
    */
    method GetCursorNameInto(size: nat, stmt: Handle, nameBuf: array?<char>, nameBufLen: nat)
      returns (result: SqlResult, nameResLen: nat)
      requires size == 2 || size == 4
      requires nameBuf != null ==> nameBufLen < nameBuf.Length
      modifies nameBuf
      ensures
        var name := NameOf(cursorNameMap, stmt);
        var shown := if nameBuf == null then None else Shown(name, nameBufLen);
        && (nameBuf != null ==>
              (shown.Some? ==> |shown.value| < nameBuf.Length) && nameBuf[..] == Written(old(nameBuf[..]), shown))
        && nameResLen == (if shown.Some? then |shown.value| else |name|)
        && result == if nameResLen < |name| then SuccessWithInfo else Success
      ensures nameBuf != null && nameBufLen > 0 ==>
        var name := NameOf(cursorNameMap, stmt);
        var n := Min(|name|, nameBufLen);
        && nameBuf[..n] == name[..n] && nameBuf[n] == '\0' && nameResLen == n
        && (result == Success <==> |name| <= nameBufLen)
    {
      var name := GetCursorName(stmt);
      if nameBuf == null {
        return Success, |name|;
      }
      WholeCharactersFit(size, nameBufLen);
      var bytes, truncated := CopyUtf8StringToWcharString(size, name, nameBuf, (nameBufLen + 1) * size);
      nameResLen := bytes / size;
      result := if truncated then SuccessWithInfo else Success;
    }
  }
}
