/**
 * The DeepSea ResourceResolver: classifies a resolve-handler method as one
 * of the resource-encryption schemes V3, V40 or V41 (trying them in that
 * order), records the scheme's parameters, and later materialises the
 * resource by registering the decrypted data and draining the ciphertext
 * field in place.
 */
module DeepSeaResources {
  import opened Basics
  import opened Cil
  import opened Scanners
  import opened HandlerV41

  datatype ResourceVersion = Unknown | V3 | V40 | V41

  /** An embedded resource of the module (only its name matters here). */
  datatype EmbeddedResource = EmbeddedResource(name: string)

  /** The V3 parameters: the encrypted resource found from the handler's strings. */
  datatype Data30 = Data30(resource: Option<EmbeddedResource>)

  /**
   * The name a decrypted resource is registered under: a V3 resource keeps
   * its own name; a V40/V41 one is named after the field's metadata token
   * and RVA ("Embedded data field {token:X8} RVA {rva:X8}").
   */
  datatype ResourceName = Named(name: string) | EmbeddedDataField(metadataToken: FieldToken, rva: int)

  /** What a registered resource is decrypted from; the transforms themselves are not modelled. */
  datatype Payload =
    | DecryptedV3(resource: EmbeddedResource)
    | DecryptedV4(blob: Option<seq<Byte>>, magic: Int32)

  /** One call of DeobUtils.decryptAndAddResources. */
  datatype AddedResource = AddedResource(name: ResourceName, payload: Payload)

  /** The local types whose presence identifies a V3 handler. */
  const HandlerLocalTypesV3: seq<string> := [
    "System.AppDomain",
    "System.Byte[]",
    "System.Collections.Generic.Dictionary`2<System.String,System.String>",
    "System.IO.Compression.DeflateStream",
    "System.IO.MemoryStream",
    "System.IO.Stream",
    "System.Reflection.Assembly",
    "System.String",
    "System.String[]"
  ]

  /**
   * checkHandlerV3: every one of the nine names is among the handler's local
   * types; when it fails, some one of them is missing.
   */
  predicate CheckHandlerV3(handler: MethodDef): (b: bool)
    ensures b ==> forall k :: 0 <= k < |HandlerLocalTypesV3| ==> HandlerLocalTypesV3[k] in handler.localTypes
    ensures !b ==> exists k :: 0 <= k < |HandlerLocalTypesV3| && HandlerLocalTypesV3[k] !in handler.localTypes
  {
    forall t :: t in HandlerLocalTypesV3 ==> t in handler.localTypes
  }

  /** What checkHandlerMethodDesktopInternal decides about a handler. */
  datatype Classification = NoMatch | MatchV3 | MatchV40(data40: Data40) | MatchV41(data41: Data41)

  /**
   * The variant a handler is classified as: V3 if its locals fit, else V40 if
   * a V40 window exists, else V41 if a call site yields V41 parameters, else
   * nothing. The instruction list the V40/V41 scanners see is the handler's
   * body after the (unmodelled, here identity) deobfuscation pass.
   */
  function Classify(handler: MethodDef, fields: map<FieldToken, FieldDef>, methods: map<int, MethodDef>,
                    ver: AsmVersion, getArgValues: ArgResolver): (c: Classification)
    ensures c.MatchV40? ==> HasInitialValue(fields, c.data40.resourceField)
    ensures c.MatchV41? ==> HasInitialValue(fields, c.data41.resourceField)
  {
    if CheckHandlerV3(handler) then MatchV3
    else match V40Match(handler.body, fields, methods)
      case Some(d) => MatchV40(d)
      case None =>
        match HandlerArgs41(handler.body, methods, getArgValues)
        case None => NoMatch
        case Some(info) =>
          match V41Params(info, fields, methods, ver)
          case Some(d) => MatchV41(d)
          case None => NoMatch
  }

  /** The version a classification selects; NoMatch leaves the old one. */
  function VersionAfter(c: Classification, previous: ResourceVersion): ResourceVersion {
    match c
    case NoMatch => previous
    case MatchV3 => V3
    case MatchV40(_) => V40
    case MatchV41(_) => V41
  }

  /**
   * The detection half of checkHandlerMethodDesktopInternal, running the
   * scanners in priority order and stopping at the first variant that matches.
   */
  method ClassifyHandler(handler: MethodDef, fields: map<FieldToken, FieldDef>, methods: map<int, MethodDef>,
                         ver: AsmVersion, getArgValues: ArgResolver) returns (c: Classification)
    ensures c == Classify(handler, fields, methods, ver, getArgValues)
  {
    if CheckHandlerV3(handler) {
      return MatchV3;
    }
    // simpleDeobfuscator.deobfuscate(handler) is taken to leave the body as it is
    var data40 := CheckHandlerV40(handler.body, fields, methods);
    if data40.Some? {
      return MatchV40(data40.value);
    }
    var info := GetHandlerArgs41(handler.body, methods, getArgValues);
    if info.Some? {
      var data41 := CheckHandlerV41(info.value, fields, methods, ver);
      if data41.Some? {
        return MatchV41(data41.value);
      }
    }
    return NoMatch;
  }

  /** A field after decryptResource: a one-byte zero blob, and type System.Byte. */
  function Drained(f: FieldDef): (d: FieldDef)
    ensures d.rva == f.rva
  {
    f.(initialValue := Some([0]), fieldType := ByteType)
  }

  /** The module whose fields and resources the resolver reads and changes. */
  class ModuleDefinition {
    /** The field table: field definitions by metadata token. */
    var fields: map<FieldToken, FieldDef>
    /** The method definitions by metadata token. */
    const methods: map<int, MethodDef>
    /** The assembly's version. */
    const version: AsmVersion
    /** The resources added by decryptAndAddResources, in order. */
    var resources: seq<AddedResource>

    constructor (fields: map<FieldToken, FieldDef>, methods: map<int, MethodDef>, version: AsmVersion)
      ensures this.fields == fields && this.methods == methods && this.version == version
      ensures resources == []
    {
      this.fields := fields;
      this.methods := methods;
      this.version := version;
      resources := [];
    }
  }

  class ResourceResolver {
    const moduleDef: ModuleDefinition
    /** Set by the resolver base class once a handler has been accepted. */
    var resolveHandler: Option<MethodDef>
    var version: ResourceVersion
    var data30: Option<Data30>
    var data40: Option<Data40>
    var data41: Option<Data41>

    constructor (moduleDef: ModuleDefinition)
      ensures this.moduleDef == moduleDef
      ensures resolveHandler == None && version == Unknown
      ensures data30 == None && data40 == None && data41 == None
    {
      this.moduleDef := moduleDef;
      resolveHandler := None;
      version := Unknown;
      data30 := None;
      data40 := None;
      data41 := None;
    }

    /**
     * What mergeResources needs to run without a null dereference: the data
     * of the recorded version is present and names a field of the module.
     */
    ghost predicate Materializable()
      reads this, moduleDef
    {
      && (version == V3 ==> data30.Some?)
      && (version == V40 ==> data40.Some? && data40.value.resourceField in moduleDef.fields)
      && (version == V41 ==> data41.Some? && data41.value.resourceField in moduleDef.fields)
    }

    /** The GetDataMethod property: the V40 accessor, if V40 data was found. */
    function GetDataMethod(): (m: Option<MethodRef>)
      reads this
      ensures m.Some? ==> data40.Some? && data40.value.getDataMethod == m
      ensures data40.Some? ==> m == data40.value.getDataMethod
      ensures data40.None? ==> m.None?
    {
      if data40.Some? then data40.value.getDataMethod else None
    }

    /** The Resource property: the V3 resource, if initialize located it. */
    function Resource(): (r: Option<EmbeddedResource>)
      reads this
      ensures r.Some? ==> data30.Some? && data30.value.resource == r
      ensures data30.Some? ==> r == data30.value.resource
      ensures data30.None? ==> r.None?
    {
      if data30.Some? then data30.value.resource else None
    }

    /**
     * checkHandlerMethodDesktopInternal: classify the handler, set version to
     * the first variant that matches, and record its data. data40 receives the
     * V40 scan's result (null unless V40 matched) whenever V3 does not match;
     * ClassifyPriority shows this is V40Match of the handler's body.
     */
    method CheckHandlerMethodDesktopInternal(handler: MethodDef, getArgValues: ArgResolver) returns (ok: bool)
      modifies this
      ensures var c := Classify(handler, moduleDef.fields, moduleDef.methods, moduleDef.version, getArgValues);
        && ok == !c.NoMatch?
        && version == VersionAfter(c, old(version))
        && data40 == (if c.MatchV3? then old(data40) else if c.MatchV40? then Some(c.data40) else None)
        && data41 == (if c.MatchV41? then Some(c.data41) else old(data41))
      ensures data30 == old(data30) && resolveHandler == old(resolveHandler)
      ensures ok && version != V3 ==> Materializable()
      ensures var c := Classify(handler, moduleDef.fields, moduleDef.methods, moduleDef.version, getArgValues);
        GetDataMethod() == (if c.MatchV3? then old(GetDataMethod())
                            else if c.MatchV40? then c.data40.getDataMethod else None)
    {
      var c := ClassifyHandler(handler, moduleDef.fields, moduleDef.methods, moduleDef.version, getArgValues);
      ok := !c.NoMatch?;
      if !c.MatchV3? {
        data40 := if c.MatchV40? then Some(c.data40) else None;
      }
      if c.MatchV41? {
        data41 := Some(c.data41);
      }
      version := VersionAfter(c, version);
    }

    /**
     * initialize: for V3 only, and only once a handler is known, record the
     * encrypted resource that string decryption located in the handler
     * (`located`: the result of getEmbeddedResourceFromCodeStrings, possibly
     * null). Every other case changes nothing.
     */
    method Initialize(located: Option<EmbeddedResource>)
      modifies this
      ensures resolveHandler.Some? && version == V3 ==> data30 == Some(Data30(located)) && Resource() == located
      ensures !(resolveHandler.Some? && version == V3) ==> data30 == old(data30)
      ensures version == old(version) && data40 == old(data40) && data41 == old(data41)
      ensures resolveHandler == old(resolveHandler)
      ensures old(Materializable()) || (resolveHandler.Some? && version == V3) ==> Materializable()
    {
      if resolveHandler.None? {
        return;
      }
      if version == V3 {
        data30 := Some(Data30(located));
        if located.None? {
          // the source logs "Could not find resource of encrypted resources"
          return;
        }
      }
    }

    /**
     * mergeResources: materialise the resource of the recorded version.
     * Unknown succeeds with nothing to do; V3 fails without a located
     * resource and otherwise registers it; V40 and V41 go to decryptResource.
     */
    method MergeResources() returns (ok: bool, rsrc: Option<EmbeddedResource>)
      requires Materializable()
      modifies moduleDef
      ensures version == Unknown ==> ok && rsrc == None && moduleDef.fields == old(moduleDef.fields)
                                        && moduleDef.resources == old(moduleDef.resources)
      ensures version == V3 ==>
        && moduleDef.fields == old(moduleDef.fields)
        && rsrc == data30.value.resource
        && ok == rsrc.Some?
        && moduleDef.resources == old(moduleDef.resources) + (if ok then [AddedResource(Named(rsrc.value.name), DecryptedV3(rsrc.value))] else [])
      ensures version == V40 ==> ok && rsrc == None && DrainedBy(data40.value.resourceField, data40.value.magic)
      ensures version == V41 ==> ok && rsrc == None && DrainedBy(data41.value.resourceField, data41.value.magic)
      ensures Materializable()
    {
      rsrc := None;
      match version
      case V3 =>
        if data30.value.resource.None? {
          return false, None;
        }
        var resource := data30.value.resource.value;
        moduleDef.resources := moduleDef.resources + [AddedResource(Named(resource.name), DecryptedV3(resource))];
        rsrc := Some(resource);
        return true, rsrc;
      case V40 =>
        ok := DecryptResource(Some(data40.value.resourceField), data40.value.magic);
      case V41 =>
        ok := DecryptResource(Some(data41.value.resourceField), data41.value.magic);
      case Unknown =>
        return true, None;
    }

    /**
     * The effect of one successful decryptResource on the module: one
     * resource registered, named after the field and decrypted from its old
     * blob with magic, and the field drained; nothing else changed.
     */
    twostate predicate DrainedBy(field: FieldToken, magic: Int32)
      reads moduleDef
    {
      && field in old(moduleDef.fields)
      && moduleDef.resources == old(moduleDef.resources) +
           [AddedResource(EmbeddedDataField(field, old(moduleDef.fields)[field].rva),
                          DecryptedV4(old(moduleDef.fields)[field].initialValue, magic))]
      && moduleDef.fields == old(moduleDef.fields)[field := Drained(old(moduleDef.fields)[field])]
    }

    /**
     * decryptResource: a null field fails and changes nothing; otherwise the
     * field's data is registered as a resource and the field is drained.
     */
    method DecryptResource(resourceField: Option<FieldToken>, magic: Int32) returns (ok: bool)
      requires resourceField.Some? ==> resourceField.value in moduleDef.fields
      modifies moduleDef
      ensures ok == resourceField.Some?
      ensures !ok ==> moduleDef.fields == old(moduleDef.fields) && moduleDef.resources == old(moduleDef.resources)
      ensures ok ==> DrainedBy(resourceField.value, magic)
    {
      if resourceField.None? {
        return false;
      }
      var field := resourceField.value;
      var f := moduleDef.fields[field];
      var name := EmbeddedDataField(field, f.rva);
      moduleDef.resources := moduleDef.resources + [AddedResource(name, DecryptedV4(f.initialValue, magic))];
      moduleDef.fields := moduleDef.fields[field := f.(initialValue := Some([0]), fieldType := ByteType)];
      return true;
    }
  }
}
