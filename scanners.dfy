/**
 * The instruction-window scanners of the DeepSea resource resolver. Each is
 * an early-return search over a read-only instruction list: a window
 * predicate says what matches at one position, a specification function gives
 * the first match (via Basics.FirstMatch), and a method with the source's loop
 * is proved to compute that function.
 */
module Scanners {
  import opened Basics
  import opened Cil

  // ---------------------------------------------------------------------
  // getMagicArgIndex41Retail: add; ldarg; sub; ldc.i4 0xFF

  predicate RetailAt(instrs: seq<Instr>, i: nat) {
    && i + 3 < |instrs|
    && instrs[i].code == Add
    && IsLdarg(instrs[i + 1])
    && instrs[i + 2].code == Sub
    && IsLdcI4(instrs[i + 3]) && LdcI4Value(instrs[i + 3]) == 0xFF
  }

  /** Position of the first retail window. */
  function RetailWindow(instrs: seq<Instr>): (r: Option<nat>)
    ensures r.Some? ==> RetailAt(instrs, r.value) && forall j: nat :: j < r.value ==> !RetailAt(instrs, j)
    ensures r.None? <==> forall j: nat :: !RetailAt(instrs, j)
  {
    var p := (i: nat) => RetailAt(instrs, i);
    assert forall j: nat :: p(j) == RetailAt(instrs, j);
    FirstMatch(p, 0, |instrs|)
  }

  /**
   * The argument slot named by the ldarg of the first retail window, -1 when
   * there is no retail window.
   */
  function RetailArgIndex(instrs: seq<Instr>): (r: int)
    ensures r == -1 <==> forall j: nat :: !RetailAt(instrs, j)
    ensures r != -1 ==> r >= 0 && exists i: nat :: && RetailAt(instrs, i)
                                                  && (forall j: nat :: j < i ==> !RetailAt(instrs, j))
                                                  && r == ArgIndex(instrs[i + 1])
  {
    match RetailWindow(instrs)
    case Some(i) => ArgIndex(instrs[i + 1])
    case None => -1
  }

  method GetMagicArgIndex41Retail(instrs: seq<Instr>) returns (index: int)
    ensures index == RetailArgIndex(instrs)
  {
    for i := 0 to if |instrs| >= 3 then |instrs| - 3 else 0
      invariant forall j: nat :: j < i ==> !RetailAt(instrs, j)
    {
      if instrs[i].code != Add { continue; }
      var ldarg := instrs[i + 1];
      if !IsLdarg(ldarg) { continue; }
      if instrs[i + 2].code != Sub { continue; }
      var ldci4 := instrs[i + 3];
      if !IsLdcI4(ldci4) || LdcI4Value(ldci4) != 0xFF { continue; }
      assert RetailAt(instrs, i);
      return ArgIndex(ldarg);
    }
    return -1;
  }

  // ---------------------------------------------------------------------
  // getMagicArgIndex41Trial: ldarg; ldc.i4 (any value); shr

  predicate TrialAt(instrs: seq<Instr>, i: nat) {
    && i + 2 < |instrs|
    && IsLdarg(instrs[i])
    && IsLdcI4(instrs[i + 1])
    && instrs[i + 2].code == Shr
  }

  /** Position of the first trial window. */
  function TrialWindow(instrs: seq<Instr>): (r: Option<nat>)
    ensures r.Some? ==> TrialAt(instrs, r.value) && forall j: nat :: j < r.value ==> !TrialAt(instrs, j)
    ensures r.None? <==> forall j: nat :: !TrialAt(instrs, j)
  {
    var p := (i: nat) => TrialAt(instrs, i);
    assert forall j: nat :: p(j) == TrialAt(instrs, j);
    FirstMatch(p, 0, |instrs|)
  }

  /** The argument slot of the ldarg opening the first trial window, -1 when none. */
  function TrialArgIndex(instrs: seq<Instr>): (r: int)
    ensures r == -1 <==> forall j: nat :: !TrialAt(instrs, j)
    ensures r != -1 ==> r >= 0 && exists i: nat :: && TrialAt(instrs, i)
                                                  && (forall j: nat :: j < i ==> !TrialAt(instrs, j))
                                                  && r == ArgIndex(instrs[i])
  {
    match TrialWindow(instrs)
    case Some(i) => ArgIndex(instrs[i])
    case None => -1
  }

  method GetMagicArgIndex41Trial(instrs: seq<Instr>) returns (index: int)
    ensures index == TrialArgIndex(instrs)
  {
    for i := 0 to if |instrs| >= 2 then |instrs| - 2 else 0
      invariant forall j: nat :: j < i ==> !TrialAt(instrs, j)
    {
      var ldarg := instrs[i];
      if !IsLdarg(ldarg) { continue; }
      if !IsLdcI4(instrs[i + 1]) { continue; }
      if instrs[i + 2].code != Shr { continue; }
      assert TrialAt(instrs, i);
      return ArgIndex(ldarg);
    }
    return -1;
  }

  // ---------------------------------------------------------------------
  // getLdtokenField / getResourceField: ldtoken of a field with a blob

  predicate FieldTokenAt(body: seq<Instr>, fields: map<FieldToken, FieldDef>, i: nat) {
    && i < |body|
    && body[i].code == Ldtoken
    && AsFieldDefinition(body[i].operand, fields).Some?
    && HasInitialValue(fields, body[i].operand.field)
  }

  /**
   * The field named by the first ldtoken whose operand is a field definition
   * with a non-null, non-empty initial value; None when there is none.
   */
  function LdtokenField(body: seq<Instr>, fields: map<FieldToken, FieldDef>): (r: Option<FieldToken>)
    ensures r.Some? ==> HasInitialValue(fields, r.value)
    ensures r.Some? ==> exists i: nat :: && FieldTokenAt(body, fields, i)
                                         && (forall j: nat :: j < i ==> !FieldTokenAt(body, fields, j))
                                         && body[i].operand == FieldOperand(r.value)
    ensures r.None? <==> forall j: nat :: !FieldTokenAt(body, fields, j)
  {
    var p := (i: nat) => FieldTokenAt(body, fields, i);
    assert forall j: nat :: p(j) == FieldTokenAt(body, fields, j);
    match FirstMatch(p, 0, |body|)
    case Some(i) => Some(body[i].operand.field)
    case None => None
  }

  method GetLdtokenField(body: seq<Instr>, fields: map<FieldToken, FieldDef>) returns (field: Option<FieldToken>)
    ensures field == LdtokenField(body, fields)
  {
    for i := 0 to |body|
      invariant forall j: nat :: j < i ==> !FieldTokenAt(body, fields, j)
    {
      var instr := body[i];
      if instr.code != Ldtoken { continue; }
      var f := AsFieldDefinition(instr.operand, fields);
      if f.None? || fields[f.value].initialValue.None? || |fields[f.value].initialValue.value| == 0 { continue; }
      assert FieldTokenAt(body, fields, i);
      return f;
    }
    return None;
  }

  /** getResourceField: the same search as getLdtokenField, written out a second time. */
  method GetResourceField(body: seq<Instr>, fields: map<FieldToken, FieldDef>) returns (field: Option<FieldToken>)
    ensures field == LdtokenField(body, fields)
  {
    var i := 0;
    while i < |body|
      invariant i <= |body|
      invariant forall j: nat :: j < i ==> !FieldTokenAt(body, fields, j)
    {
      var instr := body[i];
      if instr.code == Ldtoken {
        var f := AsFieldDefinition(instr.operand, fields);
        if f.Some? && fields[f.value].initialValue.Some? && |fields[f.value].initialValue.value| != 0 {
          assert FieldTokenAt(body, fields, i);
          return f;
        }
      }
      i := i + 1;
    }
    return None;
  }

  // ---------------------------------------------------------------------
  // getHandlerArgs41: first call to a method definition whose arguments resolve

  /** A value DsUtils.getArgValues can reconstruct for a call argument. */
  datatype Value = IntValue(v: Int32) | OtherValue

  /**
   * DsUtils.getArgValues: given the instruction list and the index of a call,
   * the statically resolved argument values, or None when some argument
   * cannot be resolved.
   */
  type ArgResolver = (seq<Instr>, nat) -> Option<seq<Value>>

  /** The called method definition and the values passed to it. */
  datatype HandlerInfo = HandlerInfo(handler: MethodRef, args: seq<Value>)

  predicate CallSiteAt(instrs: seq<Instr>, methods: map<int, MethodDef>, getArgValues: ArgResolver, i: nat) {
    && i < |instrs|
    && instrs[i].code == Call
    && AsMethodDefinition(instrs[i].operand, methods).Some?
    && getArgValues(instrs, i).Some?
  }

  /**
   * The first call whose operand is a method definition and whose arguments
   * resolve; calls failing either test are skipped. None when there is none.
   */
  function HandlerArgs41(instrs: seq<Instr>, methods: map<int, MethodDef>, getArgValues: ArgResolver): (r: Option<HandlerInfo>)
    ensures r.Some? ==> r.value.handler.token in methods
    ensures r.Some? ==> exists i: nat :: && CallSiteAt(instrs, methods, getArgValues, i)
                                         && (forall j: nat :: j < i ==> !CallSiteAt(instrs, methods, getArgValues, j))
                                         && instrs[i].operand == MethodOperand(r.value.handler)
                                         && getArgValues(instrs, i) == Some(r.value.args)
    ensures r.None? <==> forall j: nat :: !CallSiteAt(instrs, methods, getArgValues, j)
  {
    var p := (i: nat) => CallSiteAt(instrs, methods, getArgValues, i);
    assert forall j: nat :: p(j) == CallSiteAt(instrs, methods, getArgValues, j);
    match FirstMatch(p, 0, |instrs|)
    case Some(i) => Some(HandlerInfo(instrs[i].operand.target, getArgValues(instrs, i).value))
    case None => None
  }

  method GetHandlerArgs41(instrs: seq<Instr>, methods: map<int, MethodDef>, getArgValues: ArgResolver)
    returns (info: Option<HandlerInfo>)
    ensures info == HandlerArgs41(instrs, methods, getArgValues)
  {
    for i := 0 to |instrs|
      invariant forall j: nat :: j < i ==> !CallSiteAt(instrs, methods, getArgValues, j)
    {
      var instr := instrs[i];
      if instr.code != Call { continue; }
      var calledMethod := AsMethodDefinition(instr.operand, methods);
      if calledMethod.None? { continue; }
      var args := getArgValues(instrs, i);
      if args.None? { continue; }
      assert CallSiteAt(instrs, methods, getArgValues, i);
      return Some(HandlerInfo(calledMethod.value, args.value));
    }
    return None;
  }

  // ---------------------------------------------------------------------
  // checkHandlerV40: ldarg.1; ldtoken; ldc.i4 len; ldstr; ldc.i4 magic; [tail.] call

  /** The V40 parameters: ciphertext field, byte[]() accessor (if any) and magic. */
  datatype Data40 = Data40(resourceField: FieldToken, getDataMethod: Option<MethodRef>, magic: Int32)

  /** Outcome of trying the V40 window at one position. */
  datatype Probe = Mismatch | Overrun | Found(data: Data40)

  const FieldHandleCallSig := "(System.ResolveEventArgs,System.RuntimeFieldHandle,System.Int32,System.String,System.Int32)"
  const MethodHandleCallSig := "(System.ResolveEventArgs,System.RuntimeMethodHandle,System.Int32,System.String,System.Int32)"

  /** What an ldtoken operand of the V40 window leads to. */
  datatype Target = Target(field: FieldToken, accessor: Option<MethodRef>, callSig: string)

  /**
   * The ldtoken operand of the V40 window resolved to its ciphertext field:
   * the field itself (4.0.1.18 .. 4.0.3), or the first qualifying ldtoken
   * field inside a byte[]() accessor method (>= 4.0.4), together with the
   * signature the final call must have. None rejects the position.
   */
  function TokenTarget(operand: Operand, fields: map<FieldToken, FieldDef>, methods: map<int, MethodDef>): (r: Option<Target>)
    ensures r.Some? ==> HasInitialValue(fields, r.value.field)
    ensures r.Some? && r.value.accessor.None? ==> operand == FieldOperand(r.value.field) && r.value.callSig == FieldHandleCallSig
    ensures r.Some? && r.value.accessor.Some? ==> && operand == MethodOperand(r.value.accessor.value)
                                                  && r.value.accessor.value.token in methods
                                                  && IsMethod(r.value.accessor, "System.Byte[]", "()")
                                                  && LdtokenField(methods[r.value.accessor.value.token].body, fields) == Some(r.value.field)
                                                  && r.value.callSig == MethodHandleCallSig
    ensures var f := AsFieldDefinition(operand, fields);
      AsMethodDefinition(operand, methods).None? && f.Some? && HasInitialValue(fields, f.value)
      ==> r == Some(Target(f.value, None, FieldHandleCallSig))
    ensures var m := AsMethodDefinition(operand, methods);
      m.Some? && IsMethod(m, "System.Byte[]", "()") && LdtokenField(methods[m.value.token].body, fields).Some?
      ==> r == Some(Target(LdtokenField(methods[m.value.token].body, fields).value, m, MethodHandleCallSig))
  {
    var accessor := AsMethodDefinition(operand, methods);
    if accessor.Some? && !IsMethod(accessor, "System.Byte[]", "()") then None
    else
      var field := if accessor.Some? then LdtokenField(methods[accessor.value.token].body, fields)
                   else AsFieldDefinition(operand, fields);
      if field.None? || !HasInitialValue(fields, field.value) then None
      else Some(Target(field.value, accessor, if accessor.Some? then MethodHandleCallSig else FieldHandleCallSig))
  }

  /**
   * The rest of the V40 window from position k on: ldc.i4 with the blob's
   * length, ldstr, ldc.i4 magic, optional tail. prefix, call of an
   * Assembly-returning method with the expected signature. Overrun is the
   * point where the source's cursor would read past the end of the list.
   */
  /** The final call of the V40 window, at position c, with the expected signature. */
  predicate V40CallAt(instrs: seq<Instr>, c: nat, callSig: string) {
    && c < |instrs|
    && instrs[c].code == Call
    && IsMethod(AsMethodReference(instrs[c].operand), "System.Reflection.Assembly", callSig)
  }

  /**
   * The V40 window after the ldtoken, as one condition on the positions from
   * k on: the length literal, ldstr, the magic literal, and the call, which
   * sits one further when a tail. prefix precedes it.
   */
  predicate V40TailAt(instrs: seq<Instr>, fields: map<FieldToken, FieldDef>, k: nat, t: Target)
    requires HasInitialValue(fields, t.field)
  {
    && k + 3 < |instrs|
    && IsLdcI4(instrs[k]) && LdcI4Value(instrs[k]) == |fields[t.field].initialValue.value|
    && instrs[k + 1].code == Ldstr
    && IsLdcI4(instrs[k + 2])
    && V40CallAt(instrs, if instrs[k + 3].code == Tail then k + 4 else k + 3, t.callSig)
  }

  function ProbeV40Tail(instrs: seq<Instr>, fields: map<FieldToken, FieldDef>, k: nat, t: Target): (r: Probe)
    requires HasInitialValue(fields, t.field)
    ensures r.Found? ==> r.data.resourceField == t.field && r.data.getDataMethod == t.accessor
    ensures r.Found? ==> && k + 2 < |instrs| && IsLdcI4(instrs[k]) && IsLdcI4(instrs[k + 2])
                         && LdcI4Value(instrs[k]) == |fields[t.field].initialValue.value|
                         && instrs[k + 1].code == Ldstr
                         && r.data.magic == LdcI4Value(instrs[k + 2])
  {
    var n := |instrs|;
    if k >= n then Overrun
    else if !IsLdcI4(instrs[k]) || LdcI4Value(instrs[k]) != |fields[t.field].initialValue.value| then Mismatch
    else if k + 1 >= n then Overrun
    else if instrs[k + 1].code != Ldstr then Mismatch
    else if k + 2 >= n then Overrun
    else if !IsLdcI4(instrs[k + 2]) then Mismatch
    else if k + 3 >= n then Overrun
    else
      var c := if instrs[k + 3].code == Tail then k + 4 else k + 3;
      if c >= n then Overrun
      else if instrs[c].code != Call then Mismatch
      else if !IsMethod(AsMethodReference(instrs[c].operand), "System.Reflection.Assembly", t.callSig) then Mismatch
      else Found(Data40(t.field, t.accessor, LdcI4Value(instrs[k + 2])))
  }

  /**
   * The rest of the V40 window matches exactly when its declarative
   * condition holds, call and optional tail. prefix included.
   */
  lemma ProbeV40TailWindow(instrs: seq<Instr>, fields: map<FieldToken, FieldDef>, k: nat, t: Target)
    requires HasInitialValue(fields, t.field)
    ensures ProbeV40Tail(instrs, fields, k, t).Found? <==> V40TailAt(instrs, fields, k, t)
  {
  }

  /** One iteration of checkHandlerV40's loop, at position i. */
  function ProbeV40(instrs: seq<Instr>, fields: map<FieldToken, FieldDef>, methods: map<int, MethodDef>, i: nat): (r: Probe)
    requires i < |instrs|
    ensures r.Found? ==> && i + 4 < |instrs| && instrs[i].code == Ldarg_1 && instrs[i + 1].code == Ldtoken && IsLdcI4(instrs[i + 4])
                         && HasInitialValue(fields, r.data.resourceField)
                         && r.data.magic == LdcI4Value(instrs[i + 4])
  {
    if instrs[i].code != Ldarg_1 then Mismatch
    else if i + 1 >= |instrs| then Overrun
    else if instrs[i + 1].code != Ldtoken then Mismatch
    else match TokenTarget(instrs[i + 1].operand, fields, methods)
      case None => Mismatch
      case Some(t) => ProbeV40Tail(instrs, fields, i + 2, t)
  }

  /** The V40 window matches at i; a read past the end counts as no match. */
  predicate V40At(instrs: seq<Instr>, fields: map<FieldToken, FieldDef>, methods: map<int, MethodDef>, i: nat) {
    i < |instrs| && ProbeV40(instrs, fields, methods, i).Found?
  }

  /** Position of the first V40 window. */
  function V40Window(instrs: seq<Instr>, fields: map<FieldToken, FieldDef>, methods: map<int, MethodDef>): (r: Option<nat>)
    ensures r.Some? ==> V40At(instrs, fields, methods, r.value)
    ensures r.Some? ==> forall j: nat :: j < r.value ==> !V40At(instrs, fields, methods, j)
    ensures r.None? <==> forall j: nat :: !V40At(instrs, fields, methods, j)
  {
    var p := (i: nat) => V40At(instrs, fields, methods, i);
    assert forall j: nat :: p(j) == V40At(instrs, fields, methods, j);
    FirstMatch(p, 0, |instrs|)
  }

  /**
   * checkHandlerV40: the parameters found at the first matching position.
   * The ciphertext field always has a non-empty blob.
   */
  function V40Match(instrs: seq<Instr>, fields: map<FieldToken, FieldDef>, methods: map<int, MethodDef>): (r: Option<Data40>)
    ensures r.Some? ==> HasInitialValue(fields, r.value.resourceField)
    ensures r.Some? <==> exists i: nat :: V40At(instrs, fields, methods, i)
  {
    match V40Window(instrs, fields, methods)
    case Some(i) => Some(ProbeV40(instrs, fields, methods, i).data)
    case None => None
  }

  method CheckHandlerV40(instrs: seq<Instr>, fields: map<FieldToken, FieldDef>, methods: map<int, MethodDef>)
    returns (data40: Option<Data40>)
    ensures data40 == V40Match(instrs, fields, methods)
  {
    for i := 0 to |instrs|
      invariant forall j: nat :: j < i ==> !V40At(instrs, fields, methods, j)
    {
      var found := CheckHandlerV40At(instrs, fields, methods, i);
      if found.Some? {
        V40MatchIsFirst(instrs, fields, methods, i);
        return found;
      }
    }
    return None;
  }

  /** A V40 window preceded by none is the one checkHandlerV40 reports. */
  lemma V40MatchIsFirst(instrs: seq<Instr>, fields: map<FieldToken, FieldDef>, methods: map<int, MethodDef>, i: nat)
    requires V40At(instrs, fields, methods, i)
    requires forall j: nat :: j < i ==> !V40At(instrs, fields, methods, j)
    ensures V40Match(instrs, fields, methods) == Some(ProbeV40(instrs, fields, methods, i).data)
  {
    var w := V40Window(instrs, fields, methods);
    assert w == Some(i);
  }

  /** One iteration of checkHandlerV40's loop; None stands for its `continue`. */
  method CheckHandlerV40At(instrs: seq<Instr>, fields: map<FieldToken, FieldDef>, methods: map<int, MethodDef>, i: nat)
    returns (found: Option<Data40>)
    requires i < |instrs|
    ensures found.Some? <==> V40At(instrs, fields, methods, i)
    ensures found.Some? ==> found == Some(ProbeV40(instrs, fields, methods, i).data)
  {
    var index := i;
    if instrs[index].code != Ldarg_1 { return None; }
    index := index + 1;

    if index >= |instrs| { return None; }
    var ldtoken := instrs[index];
    index := index + 1;
    if ldtoken.code != Ldtoken { return None; }
    var target := ResolveLdtoken(ldtoken.operand, fields, methods);
    if target.None? { return None; }

    found := MatchV40Tail(instrs, fields, index, target.value);
  }

  /** The field-or-accessor part of checkHandlerV40's loop body. */
  method ResolveLdtoken(operand: Operand, fields: map<FieldToken, FieldDef>, methods: map<int, MethodDef>)
    returns (target: Option<Target>)
    ensures target == TokenTarget(operand, fields, methods)
  {
    var field := AsFieldDefinition(operand, fields);
    var methodSig := FieldHandleCallSig;
    var accessor := AsMethodDefinition(operand, methods);
    if accessor.Some? {
      // >= 4.0.4: the field is reached through a byte[]() accessor
      if !IsMethod(accessor, "System.Byte[]", "()") { return None; }
      field := GetResourceField(methods[accessor.value.token].body, fields);
      methodSig := MethodHandleCallSig;
    }
    if field.None? || field.value !in fields || fields[field.value].initialValue.None?
      || |fields[field.value].initialValue.value| == 0 { return None; }
    return Some(Target(field.value, accessor, methodSig));
  }

  /** The cursor-stepping part of checkHandlerV40's loop body, from index on. */
  method MatchV40Tail(instrs: seq<Instr>, fields: map<FieldToken, FieldDef>, index: nat, target: Target)
    returns (found: Option<Data40>)
    requires HasInitialValue(fields, target.field)
    ensures found.Some? <==> ProbeV40Tail(instrs, fields, index, target).Found?
    ensures found.Some? ==> found.value == ProbeV40Tail(instrs, fields, index, target).data
  {
    var index := index;
    var blob := fields[target.field].initialValue.value;
    if index >= |instrs| { return None; }
    var ldci4Len := instrs[index];
    index := index + 1;
    if !IsLdcI4(ldci4Len) { return None; }
    if LdcI4Value(ldci4Len) != |blob| { return None; }

    if index >= |instrs| { return None; }
    if instrs[index].code != Ldstr { return None; }
    index := index + 1;

    if index >= |instrs| { return None; }
    var ldci4Magic := instrs[index];
    index := index + 1;
    if !IsLdcI4(ldci4Magic) { return None; }
    var magic := LdcI4Value(ldci4Magic);

    if index >= |instrs| { return None; }
    var call := instrs[index];
    index := index + 1;
    if call.code == Tail {
      if index >= |instrs| { return None; }
      call := instrs[index];
      index := index + 1;
    }
    if call.code != Call { return None; }
    if !IsMethod(AsMethodReference(call.operand), "System.Reflection.Assembly", target.callSig) { return None; }
    return Some(Data40(target.field, target.accessor, magic));
  }
}
