/**
 * Properties of the DeepSea resource resolver model that relate several
 * operations or several inputs: the priority order of the classification,
 * what the V3 test depends on, the V40 length check, prefix stability of
 * the first-match scanners, the V41 magic in terms of instruction windows,
 * the version key's bitwise or, worked examples of each variant, and the
 * fact that a drained field still qualifies as ciphertext.
 */
module Properties {
  import opened Basics
  import opened Cil
  import opened Scanners
  import opened HandlerV41
  import opened DeepSeaResources

  // ---------------------------------------------------------------------
  // Classification order

  /**
   * V3 wins whenever its locals fit; V40 is chosen exactly when V3 does not
   * fit and a V40 window exists; V41 exactly when neither did and the first
   * resolvable call yields V41 parameters. The data recorded for V40 is the
   * V40 scan's answer, which is null whenever V3 and V40 both fail.
   */
  lemma ClassifyPriority(handler: MethodDef, fields: map<FieldToken, FieldDef>, methods: map<int, MethodDef>,
                         ver: AsmVersion, getArgValues: ArgResolver)
    ensures var c := Classify(handler, fields, methods, ver, getArgValues);
      && (c.MatchV3? <==> CheckHandlerV3(handler))
      && (c.MatchV40? <==> !CheckHandlerV3(handler) && V40Match(handler.body, fields, methods).Some?)
      && (c.MatchV40? ==> V40Match(handler.body, fields, methods) == Some(c.data40))
      && (!c.MatchV3? && !c.MatchV40? ==> V40Match(handler.body, fields, methods) == None)
    ensures var c := Classify(handler, fields, methods, ver, getArgValues);
      var info := HandlerArgs41(handler.body, methods, getArgValues);
      && (c.MatchV41? <==> && !CheckHandlerV3(handler)
                           && V40Match(handler.body, fields, methods).None?
                           && info.Some?
                           && V41Params(info.value, fields, methods, ver).Some?)
      && (c.MatchV41? ==> V41Params(info.value, fields, methods, ver) == Some(c.data41))
  {
  }

  /**
   * The V3 test reads only the set of local type names: extra locals, their
   * order and duplicates do not matter, nor does the body.
   */
  lemma CheckHandlerV3Locals(h1: MethodDef, h2: MethodDef)
    requires CheckHandlerV3(h1)
    requires forall t :: t in h1.localTypes ==> t in h2.localTypes
    ensures CheckHandlerV3(h2)
  {
  }

  /** The V3 test names nine distinct local types. */
  lemma HandlerLocalTypesV3Distinct()
    ensures |HandlerLocalTypesV3| == 9
    ensures forall j, k :: 0 <= j < k < |HandlerLocalTypesV3| ==> HandlerLocalTypesV3[j] != HandlerLocalTypesV3[k]
  {
  }

  /** A handler lacking any one of the nine local types is never V3. */
  lemma CheckHandlerV3Missing(handler: MethodDef, k: nat)
    requires k < |HandlerLocalTypesV3|
    requires HandlerLocalTypesV3[k] !in handler.localTypes
    ensures !CheckHandlerV3(handler)
  {
  }

  // ---------------------------------------------------------------------
  // The V40 window

  /**
   * The V40 window as one declarative condition: ldarg.1, an ldtoken whose
   * operand resolves to a ciphertext field, then the rest of the window.
   */
  predicate V40WindowAt(instrs: seq<Instr>, fields: map<FieldToken, FieldDef>, methods: map<int, MethodDef>, i: nat) {
    && i + 1 < |instrs|
    && instrs[i].code == Ldarg_1
    && instrs[i + 1].code == Ldtoken
    && var t := TokenTarget(instrs[i + 1].operand, fields, methods);
       t.Some? && V40TailAt(instrs, fields, i + 2, t.value)
  }

  /** checkHandlerV40's loop body matches at i exactly when the declarative window is there. */
  lemma V40AtWindow(instrs: seq<Instr>, fields: map<FieldToken, FieldDef>, methods: map<int, MethodDef>, i: nat)
    ensures V40At(instrs, fields, methods, i) <==> V40WindowAt(instrs, fields, methods, i)
  {
    if i + 1 < |instrs| && instrs[i].code == Ldarg_1 && instrs[i + 1].code == Ldtoken {
      var t := TokenTarget(instrs[i + 1].operand, fields, methods);
      if t.Some? {
        assert ProbeV40(instrs, fields, methods, i) == ProbeV40Tail(instrs, fields, i + 2, t.value);
        ProbeV40TailWindow(instrs, fields, i + 2, t.value);
      }
    }
  }

  /** A match reports the resolved field, its accessor and the second ldc.i4's value. */
  lemma V40AtData(instrs: seq<Instr>, fields: map<FieldToken, FieldDef>, methods: map<int, MethodDef>, i: nat)
    requires V40At(instrs, fields, methods, i)
    ensures && i + 4 < |instrs|
            && var t := TokenTarget(instrs[i + 1].operand, fields, methods).value;
               ProbeV40(instrs, fields, methods, i).data == Data40(t.field, t.accessor, LdcI4Value(instrs[i + 4]))
  {
  }

  /**
   * The first ldc.i4 of the V40 window must push the ciphertext's length:
   * replacing it by a constant with any other value rejects the position.
   */
  lemma V40LengthMustMatch(instrs: seq<Instr>, fields: map<FieldToken, FieldDef>, methods: map<int, MethodDef>,
                           i: nat, v: Int32)
    requires V40At(instrs, fields, methods, i)
    requires i + 2 < |instrs| && IsLdcI4(instrs[i + 2]) && v != LdcI4Value(instrs[i + 2])
    ensures !V40At(instrs[i + 2 := Instruction(Ldc_I4, IntOperand(v))], fields, methods, i)
  {
    var changed := instrs[i + 2 := Instruction(Ldc_I4, IntOperand(v))];
    assert changed[i] == instrs[i] && changed[i + 1] == instrs[i + 1];
    var t := TokenTarget(instrs[i + 1].operand, fields, methods).value;
    assert LdcI4Value(instrs[i + 2]) == |fields[t.field].initialValue.value|;
    assert ProbeV40Tail(changed, fields, i + 2, t) == Mismatch;
  }

  /**
   * A read past the end, which the model counts as no match, cannot happen
   * in a body that ends with ret: every cursor step that could overrun starts
   * from an instruction that is not ret.
   */
  lemma V40NoOverrunBeforeRet(instrs: seq<Instr>, fields: map<FieldToken, FieldDef>, methods: map<int, MethodDef>,
                              i: nat)
    requires i < |instrs| && instrs[|instrs| - 1].code == Ret
    ensures ProbeV40(instrs, fields, methods, i) != Overrun
  {
    if instrs[i].code == Ldarg_1 && i + 1 < |instrs| && instrs[i + 1].code == Ldtoken {
      var t := TokenTarget(instrs[i + 1].operand, fields, methods);
      if t.Some? {
        V40TailNoOverrunBeforeRet(instrs, fields, i + 2, t.value);
      }
    }
  }

  /** The same for the part of the window after the ldtoken, which is not the last instruction. */
  lemma V40TailNoOverrunBeforeRet(instrs: seq<Instr>, fields: map<FieldToken, FieldDef>, k: nat, t: Target)
    requires HasInitialValue(fields, t.field)
    requires 0 < k <= |instrs| && instrs[k - 1].code != Ret && instrs[|instrs| - 1].code == Ret
    ensures ProbeV40Tail(instrs, fields, k, t) != Overrun
  {
  }

  /** The V40 body of a 4.0.1.18 .. 4.0.3 build, with the optional tail. prefix. */
  function V40FieldBody(): seq<Instr> {
    [ Instruction(Ldarg_1, NoOperand),
      Instruction(Ldtoken, FieldOperand(7)),
      Instruction(Ldc_I4_3, NoOperand),
      Instruction(Ldstr, StringOperand("res")),
      Instruction(Ldc_I4, IntOperand(0x1234)),
      Instruction(Tail, NoOperand),
      Instruction(Call, MethodOperand(MethodRef(1, "System.Reflection.Assembly", FieldHandleCallSig))),
      Instruction(Ret, NoOperand) ]
  }

  function CipherFields(): map<FieldToken, FieldDef> {
    map[7 := FieldDef(0x2050, Some([0x10, 0x20, 0x30]), NamedType("<PrivateImplementationDetails>/__StaticArrayInitTypeSize=3"))]
  }

  /**
   * A direct-field V40 handler: three ciphertext bytes, length literal 3,
   * magic 0x1234, tail-called Assembly-returning method with the field
   * handle signature. The scan reports the field, no accessor and the magic.
   */
  lemma V40FieldExample()
    ensures V40Match(V40FieldBody(), CipherFields(), map[]) == Some(Data40(7, None, 0x1234))
  {
    var body := V40FieldBody();
    var t := Target(7, None, FieldHandleCallSig);
    assert TokenTarget(body[1].operand, CipherFields(), map[]) == Some(t);
    assert V40CallAt(body, 6, FieldHandleCallSig);
    assert V40TailAt(body, CipherFields(), 2, t);
    V40AtWindow(body, CipherFields(), map[], 0);
    V40AtData(body, CipherFields(), map[], 0);
    V40MatchIsFirst(body, CipherFields(), map[], 0);
  }

  // ---------------------------------------------------------------------
  // First-match scanners: what follows the first match does not matter

  /** A retail window lying inside a list is unaffected by what is appended to it. */
  lemma RetailAtAppend(instrs: seq<Instr>, extra: seq<Instr>, j: nat)
    requires j + 3 < |instrs|
    ensures RetailAt(instrs + extra, j) == RetailAt(instrs, j)
  {
    var longer := instrs + extra;
    assert longer[j] == instrs[j] && longer[j + 1] == instrs[j + 1];
    assert longer[j + 2] == instrs[j + 2] && longer[j + 3] == instrs[j + 3];
  }

  /** Instructions appended after the first retail window do not change the answer. */
  lemma RetailArgIndexAppend(instrs: seq<Instr>, extra: seq<Instr>)
    requires RetailArgIndex(instrs) != -1
    ensures RetailArgIndex(instrs + extra) == RetailArgIndex(instrs)
  {
    var longer := instrs + extra;
    var i: nat :| RetailAt(instrs, i) && (forall j: nat :: j < i ==> !RetailAt(instrs, j))
                  && RetailArgIndex(instrs) == ArgIndex(instrs[i + 1]);
    RetailAtAppend(instrs, extra, i);
    forall j: nat | j < i
      ensures !RetailAt(longer, j)
    {
      RetailAtAppend(instrs, extra, j);
    }
    RetailArgIndexAt(longer, i);
    assert longer[i + 1] == instrs[i + 1];
  }

  /** Whether a position of a list holds a qualifying ldtoken does not depend on what is appended. */
  lemma FieldTokenAtAppend(body: seq<Instr>, extra: seq<Instr>, fields: map<FieldToken, FieldDef>, j: nat)
    requires j < |body|
    ensures FieldTokenAt(body + extra, fields, j) == FieldTokenAt(body, fields, j)
  {
    assert (body + extra)[j] == body[j];
  }

  /** The qualifying ldtoken with none before it is the one whose field is reported. */
  lemma LdtokenFieldAt(body: seq<Instr>, fields: map<FieldToken, FieldDef>, i: nat)
    requires FieldTokenAt(body, fields, i) && forall j: nat :: j < i ==> !FieldTokenAt(body, fields, j)
    ensures LdtokenField(body, fields) == Some(body[i].operand.field)
  {
    var k: nat :| FieldTokenAt(body, fields, k) && (forall j: nat :: j < k ==> !FieldTokenAt(body, fields, j))
                  && body[k].operand == FieldOperand(LdtokenField(body, fields).value);
    assert k == i;
  }

  /** Instructions appended after the first qualifying ldtoken do not change the field found. */
  lemma LdtokenFieldAppend(body: seq<Instr>, extra: seq<Instr>, fields: map<FieldToken, FieldDef>)
    requires LdtokenField(body, fields).Some?
    ensures LdtokenField(body + extra, fields) == LdtokenField(body, fields)
  {
    var longer := body + extra;
    var i: nat :| FieldTokenAt(body, fields, i) && (forall j: nat :: j < i ==> !FieldTokenAt(body, fields, j))
                  && body[i].operand == FieldOperand(LdtokenField(body, fields).value);
    FieldTokenAtAppend(body, extra, fields, i);
    forall j: nat | j < i
      ensures !FieldTokenAt(longer, fields, j)
    {
      FieldTokenAtAppend(body, extra, fields, j);
    }
    LdtokenFieldAt(longer, fields, i);
    assert longer[i] == body[i];
  }

  /**
   * Two field tables that agree on which tokens are ciphertext candidates
   * give every body the same ldtoken field.
   */
  lemma LdtokenFieldSameCandidates(body: seq<Instr>, f1: map<FieldToken, FieldDef>, f2: map<FieldToken, FieldDef>)
    requires forall x :: (x in f1 <==> x in f2) && (HasInitialValue(f1, x) <==> HasInitialValue(f2, x))
    ensures LdtokenField(body, f1) == LdtokenField(body, f2)
  {
    assert forall j: nat :: FieldTokenAt(body, f1, j) == FieldTokenAt(body, f2, j);
    if LdtokenField(body, f1).Some? {
      var i: nat :| FieldTokenAt(body, f1, i) && (forall j: nat :: j < i ==> !FieldTokenAt(body, f1, j))
                    && body[i].operand == FieldOperand(LdtokenField(body, f1).value);
      var k: nat :| FieldTokenAt(body, f2, k) && (forall j: nat :: j < k ==> !FieldTokenAt(body, f2, j))
                    && body[k].operand == FieldOperand(LdtokenField(body, f2).value);
      assert k == i;
    }
  }

  // ---------------------------------------------------------------------
  // Draining

  /**
   * decryptResource leaves a one-byte zero blob behind, which is still a
   * non-empty initial value: a drained ciphertext field remains a ciphertext
   * candidate, and every ldtoken search finds what it found before.
   */
  lemma DrainedFieldStillCandidate(fields: map<FieldToken, FieldDef>, field: FieldToken, body: seq<Instr>)
    requires HasInitialValue(fields, field)
    ensures HasInitialValue(fields[field := Drained(fields[field])], field)
    ensures LdtokenField(body, fields[field := Drained(fields[field])]) == LdtokenField(body, fields)
  {
    LdtokenFieldSameCandidates(body, fields[field := Drained(fields[field])], fields);
  }

  // ---------------------------------------------------------------------
  // V41 magic

  /** The first retail window, when the retail search succeeds. */
  lemma RetailWindowOf(instrs: seq<Instr>) returns (i: nat)
    requires RetailArgIndex(instrs) != -1
    ensures RetailAt(instrs, i) && forall j: nat :: j < i ==> !RetailAt(instrs, j)
    ensures RetailArgIndex(instrs) == ArgIndex(instrs[i + 1])
  {
    i :| RetailAt(instrs, i) && (forall j: nat :: j < i ==> !RetailAt(instrs, j))
         && RetailArgIndex(instrs) == ArgIndex(instrs[i + 1]);
  }

  /** The first trial window, when the trial search succeeds. */
  lemma TrialWindowOf(instrs: seq<Instr>) returns (i: nat)
    requires TrialArgIndex(instrs) != -1
    ensures TrialAt(instrs, i) && forall j: nat :: j < i ==> !TrialAt(instrs, j)
    ensures TrialArgIndex(instrs) == ArgIndex(instrs[i])
  {
    i :| TrialAt(instrs, i) && (forall j: nat :: j < i ==> !TrialAt(instrs, j))
         && TrialArgIndex(instrs) == ArgIndex(instrs[i]);
  }

  /**
   * The retail V41 magic in terms of instruction windows: the retail formula
   * on the argument named by the ldarg of the first retail window.
   */
  lemma V41RetailMagicFromWindow(info: HandlerInfo, fields: map<FieldToken, FieldDef>, methods: map<int, MethodDef>,
                                 ver: AsmVersion)
    requires info.handler.token in methods
    requires V41Params(info, fields, methods, ver).Some? && !V41Params(info, fields, methods, ver).value.isTrial
    ensures var body := methods[info.handler.token].body;
      exists i: nat :: && RetailAt(body, i)
                       && (forall j: nat :: j < i ==> !RetailAt(body, j))
                       && ArgIndex(body[i + 1]) < |info.args|
                       && info.args[ArgIndex(body[i + 1])].IntValue?
                       && V41Params(info, fields, methods, ver).value.magic
                          == RetailMagic(ver, info.args[ArgIndex(body[i + 1])].v)
  {
    var body := methods[info.handler.token].body;
    var i := RetailWindowOf(body);
    assert KeyArgIndex(body) == ArgIndex(body[i + 1]);
  }

  /**
   * The trial V41 magic in terms of instruction windows: it is used only when
   * the handler has no retail window, and is the trial formula on the
   * argument named by the ldarg that opens the first trial window.
   */
  lemma V41TrialMagicFromWindow(info: HandlerInfo, fields: map<FieldToken, FieldDef>, methods: map<int, MethodDef>,
                                ver: AsmVersion)
    requires info.handler.token in methods
    requires V41Params(info, fields, methods, ver).Some? && V41Params(info, fields, methods, ver).value.isTrial
    ensures forall j: nat :: !RetailAt(methods[info.handler.token].body, j)
    ensures var body := methods[info.handler.token].body;
      exists i: nat :: && TrialAt(body, i)
                       && (forall j: nat :: j < i ==> !TrialAt(body, j))
                       && ArgIndex(body[i]) < |info.args|
                       && info.args[ArgIndex(body[i])].IntValue?
                       && V41Params(info, fields, methods, ver).value.magic == TrialMagic(info.args[ArgIndex(body[i])].v)
  {
    var body := methods[info.handler.token].body;
    assert TrialArgIndex(body) != -1 by {
      assert KeyArgIndex(body) == TrialArgIndex(body);
    }
    var i := TrialWindowOf(body);
    assert KeyArgIndex(body) == ArgIndex(body[i]);
  }

  /**
   * `(Major << 3) | (Minor << 2) | Revision` is a bitwise or: for version
   * 1.2.x.3 the parts 8, 8 and 3 combine to 11, not to their sum 19.
   */
  lemma VersionKeyIsBitwiseOr()
    ensures VersionKey(AsmVersion(1, 2, 0, 3)) == 11
  {
    assert BitOr(1, 1) == 1 by { assert BitOr(0, 0) == 0; }
    assert BitOr(8, 8) == 8 by {
      assert BitOr(2, 2) == 2;
      assert BitOr(4, 4) == 4;
    }
    assert BitOr(8, 3) == 11 by {
      assert BitOr(2, 0) == 2;
      assert BitOr(4, 1) == 5;
    }
  }

  /** The retail subtraction wraps around in 32 bits. */
  lemma RetailMagicWraps()
    ensures RetailMagic(AsmVersion(1, 2, 0, 3), -0x8000_0000) == -0x8000_0000 + 11
  {
    VersionKeyIsBitwiseOr();
  }

  /** `(int)val >> 3` rounds toward minus infinity, unlike C#'s division by 8. */
  lemma TrialMagicRoundsDown()
    ensures TrialMagic(-9) == -2 && TrialMagic(-1) == -1 && TrialMagic(15) == 1
  {
  }

  const Handler2 := MethodRef(5, "System.Reflection.Assembly", "(System.ResolveEventArgs,System.Int32)")

  /** A retail V41 handler: ldtoken field; ...; add; ldarg.2; sub; ldc.i4 0xFF. */
  function RetailBody(): seq<Instr> {
    [ Instruction(Ldtoken, FieldOperand(7)),
      Instruction(Add, NoOperand),
      Instruction(Ldarg_2, NoOperand),
      Instruction(Sub, NoOperand),
      Instruction(Ldc_I4, IntOperand(0xFF)),
      Instruction(Ret, NoOperand) ]
  }

  /**
   * With argument 2 holding 100 and the assembly at version 1.2.0.3, the
   * retail magic is the version key 11 minus 100.
   */
  lemma RetailV41Example()
    ensures V41Params(HandlerInfo(Handler2, [OtherValue, OtherValue, IntValue(100)]), CipherFields(),
                      map[5 := MethodDef(RetailBody(), [])], AsmVersion(1, 2, 0, 3))
            == Some(Data41(7, Handler2, -89, false))
  {
    BodyFieldScan(RetailBody());
    RetailBodyWindow();
    VersionKeyIsBitwiseOr();
    V41ParamsFound(HandlerInfo(Handler2, [OtherValue, OtherValue, IntValue(100)]), CipherFields(),
                   map[5 := MethodDef(RetailBody(), [])], AsmVersion(1, 2, 0, 3), Data41(7, Handler2, -89, false));
  }

  /** The retail window opens at 1, with ldarg.2. */
  lemma RetailBodyWindow()
    ensures RetailArgIndex(RetailBody()) == 2
  {
    var body := RetailBody();
    assert RetailAt(body, 1);
    assert !RetailAt(body, 0);
    RetailArgIndexAt(body, 1);
  }

  /** A retail window with none before it is the one whose ldarg is reported. */
  lemma RetailArgIndexAt(instrs: seq<Instr>, i: nat)
    requires RetailAt(instrs, i) && forall j: nat :: j < i ==> !RetailAt(instrs, j)
    ensures RetailArgIndex(instrs) == ArgIndex(instrs[i + 1])
  {
    var w := RetailWindow(instrs);
    assert w == Some(i);
  }

  /** A trial window with none before it is the one whose ldarg is reported. */
  lemma TrialArgIndexAt(instrs: seq<Instr>, i: nat)
    requires TrialAt(instrs, i) && forall j: nat :: j < i ==> !TrialAt(instrs, j)
    ensures TrialArgIndex(instrs) == ArgIndex(instrs[i])
  {
    var w := TrialWindow(instrs);
    assert w == Some(i);
  }

  /** A body opening with ldtoken of field 7 yields field 7. */
  lemma BodyFieldScan(body: seq<Instr>)
    requires |body| > 0 && body[0] == Instruction(Ldtoken, FieldOperand(7))
    ensures LdtokenField(body, CipherFields()) == Some(7)
  {
    assert FieldTokenAt(body, CipherFields(), 0);
  }

  /** A trial V41 handler: ldtoken field; ldarg.1; ldc.i4.3; shr. */
  function TrialBody(): seq<Instr> {
    [ Instruction(Ldtoken, FieldOperand(7)),
      Instruction(Ldarg_1, NoOperand),
      Instruction(Ldc_I4_3, NoOperand),
      Instruction(Shr, NoOperand),
      Instruction(Ret, NoOperand) ]
  }

  /**
   * Without a retail window the trial shape is used: argument 1 holding -9
   * gives the magic -9 >> 3 == -2.
   */
  lemma TrialV41Example()
    ensures V41Params(HandlerInfo(Handler2, [OtherValue, IntValue(-9)]), CipherFields(),
                      map[5 := MethodDef(TrialBody(), [])], AsmVersion(1, 2, 0, 3))
            == Some(Data41(7, Handler2, -2, true))
  {
    BodyFieldScan(TrialBody());
    TrialBodyWindow();
    V41ParamsFound(HandlerInfo(Handler2, [OtherValue, IntValue(-9)]), CipherFields(),
                   map[5 := MethodDef(TrialBody(), [])], AsmVersion(1, 2, 0, 3), Data41(7, Handler2, -2, true));
  }

  /** No retail window; the trial window opens at 1, with ldarg.1. */
  lemma TrialBodyWindow()
    ensures RetailArgIndex(TrialBody()) == -1 && TrialArgIndex(TrialBody()) == 1
  {
    var body := TrialBody();
    assert forall j: nat :: !RetailAt(body, j) by {
      forall j: nat | j < |body|
        ensures body[j].code != Add
      {
      }
    }
    assert TrialAt(body, 1);
    assert !TrialAt(body, 0);
    TrialArgIndexAt(body, 1);
  }
}
