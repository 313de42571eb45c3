/**
 * V41 parameter extraction (checkHandlerV41): from the call found by
 * getHandlerArgs41, the ciphertext field inside the called handler, the
 * argument slot carrying the key fragment (retail shape first, trial shape
 * second) and the magic constant computed from that argument.
 */
module HandlerV41 {
  import opened Basics
  import opened Cil
  import opened Scanners

  /** An assembly's version quadruple, as Cecil reads it from metadata. */
  datatype AsmVersion = AsmVersion(major: UInt16, minor: UInt16, build: UInt16, revision: UInt16)

  /** The V41 parameters. */
  datatype Data41 = Data41(resourceField: FieldToken, resolveHandler2: MethodRef, magic: Int32, isTrial: bool)

  /**
   * `(Major << 3) | (Minor << 2) | Revision` on C# ints. The shifted parts may
   * share bits (Minor >= 2 overlaps Major's lowest bit), so this is a bitwise
   * or, not a sum. The shifts
   * cannot overflow, as the parts are 16-bit.
   */
  function VersionKey(v: AsmVersion): (key: nat)
    ensures 8 * v.major <= key && 4 * v.minor <= key && v.revision <= key
    ensures key <= 8 * v.major + 4 * v.minor + v.revision < 0x8000_0000
  {
    BitOr(BitOr(8 * v.major, 4 * v.minor), v.revision)
  }

  /** Bit n of the key is set exactly when one of the shifted parts sets it. */
  lemma VersionKeyBits(v: AsmVersion, n: nat)
    ensures Bit(VersionKey(v), n) <==> || (n >= 3 && Bit(v.major, n - 3))
                                       || (n >= 2 && Bit(v.minor, n - 2))
                                       || Bit(v.revision, n)
  {
    BitOrBits(BitOr(8 * v.major, 4 * v.minor), v.revision, n);
    BitOrBits(8 * v.major, 4 * v.minor, n);
    assert Pow2(3) == 8 && Pow2(2) == 4;
    ShiftedBits(v.major, 3, n);
    ShiftedBits(v.minor, 2, n);
  }

  /** `(int)val >> 3`: the arithmetic shift, i.e. division rounding toward minus infinity. */
  function TrialMagic(val: Int32): (m: Int32)
    ensures 8 * m <= val < 8 * m + 8
  {
    val / 8
  }

  /** `key - (int)val` in unchecked 32-bit arithmetic. */
  function RetailMagic(ver: AsmVersion, val: Int32): (m: Int32)
    ensures (m + val - VersionKey(ver)) % 0x1_0000_0000 == 0
  {
    Wrap32(VersionKey(ver) - val)
  }

  /** The magic of either build flavour. */
  function Magic41(ver: AsmVersion, val: Int32, isTrial: bool): (m: Int32)
    ensures isTrial ==> 8 * m <= val < 8 * m + 8
    ensures !isTrial ==> (m + val - VersionKey(ver)) % 0x1_0000_0000 == 0
  {
    if isTrial then TrialMagic(val) else RetailMagic(ver, val)
  }

  /**
   * The key-argument slot: the retail search's answer, or the trial search's
   * when the retail search returns a negative index.
   */
  function KeyArgIndex(body: seq<Instr>): (index: int)
    ensures RetailArgIndex(body) != -1 ==> index == RetailArgIndex(body)
    ensures RetailArgIndex(body) == -1 ==> index == TrialArgIndex(body)
    ensures index == -1 <==> (forall j: nat :: !RetailAt(body, j)) && (forall j: nat :: !TrialAt(body, j))
    ensures index >= -1
  {
    var retail := RetailArgIndex(body);
    if retail < 0 then TrialArgIndex(body) else retail
  }

  /** Whether the slot names an int argument among the resolved values. */
  predicate KeyArgIsInt(args: seq<Value>, index: int) {
    0 <= index < |args| && args[index].IntValue?
  }

  /**
   * checkHandlerV41: the V41 parameters of a call site, or None. It fails when
   * the handler holds no qualifying ldtoken field, and otherwise succeeds
   * exactly when the chosen slot holds an int; the trial shape is used exactly
   * when no retail window exists, and the magic is derived from the int in
   * the chosen slot (V41MagicFromWindow restates this in terms of windows).
   */
  function V41Params(info: HandlerInfo, fields: map<FieldToken, FieldDef>, methods: map<int, MethodDef>, ver: AsmVersion)
    : (r: Option<Data41>)
    requires info.handler.token in methods
    ensures var body := methods[info.handler.token].body;
      && (r.Some? <==> LdtokenField(body, fields).Some? && KeyArgIsInt(info.args, KeyArgIndex(body)))
      && (r.Some? ==> && LdtokenField(body, fields) == Some(r.value.resourceField)
                      && HasInitialValue(fields, r.value.resourceField)
                      && r.value.resolveHandler2 == info.handler
                      && (r.value.isTrial <==> RetailArgIndex(body) == -1)
                      && r.value.magic == (if r.value.isTrial then TrialMagic(info.args[TrialArgIndex(body)].v)
                                           else RetailMagic(ver, info.args[RetailArgIndex(body)].v)))
  {
    var body := methods[info.handler.token].body;
    match LdtokenField(body, fields)
    case None => None
    case Some(field) =>
      var isTrial := RetailArgIndex(body) < 0;
      var index := KeyArgIndex(body);
      if !KeyArgIsInt(info.args, index) then None
      else
        var val := info.args[index].v;
        Some(Data41(field, info.handler, Magic41(ver, val, isTrial), isTrial))
  }

  /** Parameters assembled from the searches' answers are V41Params's answer. */
  lemma V41ParamsFound(info: HandlerInfo, fields: map<FieldToken, FieldDef>, methods: map<int, MethodDef>,
                       ver: AsmVersion, d: Data41)
    requires info.handler.token in methods
    requires var body := methods[info.handler.token].body;
      && LdtokenField(body, fields) == Some(d.resourceField)
      && KeyArgIsInt(info.args, KeyArgIndex(body))
      && (d.isTrial <==> RetailArgIndex(body) == -1)
      && d.resolveHandler2 == info.handler
      && d.magic == Magic41(ver, info.args[KeyArgIndex(body)].v, d.isTrial)
    ensures V41Params(info, fields, methods, ver) == Some(d)
  {
  }

  /** The retail search, then the trial search when the retail one fails. */
  method GetMagicArgIndex41(body: seq<Instr>) returns (magicArgIndex: int, isTrial: bool)
    ensures magicArgIndex == KeyArgIndex(body)
    ensures isTrial <==> RetailArgIndex(body) == -1
  {
    isTrial := false;
    magicArgIndex := GetMagicArgIndex41Retail(body);
    if magicArgIndex < 0 {
      magicArgIndex := GetMagicArgIndex41Trial(body);
      isTrial := true;
    }
  }

  method CheckHandlerV41(info: HandlerInfo, fields: map<FieldToken, FieldDef>, methods: map<int, MethodDef>, ver: AsmVersion)
    returns (data41: Option<Data41>)
    requires info.handler.token in methods
    ensures data41 == V41Params(info, fields, methods, ver)
  {
    var body := methods[info.handler.token].body;
    var resourceField := GetLdtokenField(body, fields);
    if resourceField.None? {
      return None;
    }
    var magicArgIndex, isTrial := GetMagicArgIndex41(body);
    if magicArgIndex < 0 || magicArgIndex >= |info.args| {
      return None;
    }
    var val := info.args[magicArgIndex];
    if !val.IntValue? {
      return None;
    }
    var magic := Magic41(ver, val.v, isTrial);
    data41 := Some(Data41(resourceField.value, info.handler, magic, isTrial));
    V41ParamsFound(info, fields, methods, ver, data41.value);
  }
}
