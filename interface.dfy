/** Interfaces: a named list of exposed method signatures with input and output schemas. */
module CoreInterface {
  import opened Common

  datatype InterfaceType =
    | QueryInterface
    | AuditInterface
    | ValidationInterface
    | ClusterInterface
    | ChannelInterface
    | Custom(text: string)

  datatype MethodSignature = MethodSignature(
    name: string,
    parameters: seq<(string, string)>,
    returnType: string,
    description: Option<string>)

  /** A JSON schema, kept as its text; the schemas are never inspected. */
  type Json = string

  /** The empty JSON object `{}`. */
  const EmptyObject: Json := "{}"

  class Interface {
    const id: string
    const name: string
    const interfaceType: InterfaceType
    const version: string
    var exposedMethods: seq<MethodSignature>
    var inputSchema: Json
    var outputSchema: Json

    /** `Interface::new` (the id, a fresh uuid in the source, is passed in): no methods, empty schemas, version 1.0.0. */
    constructor (id: string, name: string, interfaceType: InterfaceType)
      ensures this.id == id && this.name == name && this.interfaceType == interfaceType
      ensures exposedMethods == [] && inputSchema == EmptyObject && outputSchema == EmptyObject
      ensures version == "1.0.0"
    {
      this.id := id;
      this.name := name;
      this.interfaceType := interfaceType;
      version := "1.0.0";
      exposedMethods := [];
      inputSchema := EmptyObject;
      outputSchema := EmptyObject;
    }

    /** `add_method`: append the signature; earlier signatures and the schemas are untouched. */
    method AddMethod(m: MethodSignature)
      modifies this`exposedMethods
      ensures exposedMethods == old(exposedMethods) + [m]
      ensures |exposedMethods| == |old(exposedMethods)| + 1
      ensures exposedMethods[..|old(exposedMethods)|] == old(exposedMethods)
    {
      exposedMethods := exposedMethods + [m];
    }

    /** `with_schemas`: the builder replaces both schemas and hands the interface back. */
    method WithSchemas(input: Json, output: Json) returns (self: Interface)
      modifies this`inputSchema, this`outputSchema
      ensures self == this && inputSchema == input && outputSchema == output
    {
      inputSchema := input;
      outputSchema := output;
      self := this;
    }
  }

  /** Methods added one after another are listed in the order they were added. */
  method AddedMethodsKeepOrder(i: Interface, m1: MethodSignature, m2: MethodSignature)
    modifies i
    ensures i.exposedMethods == old(i.exposedMethods) + [m1, m2]
    ensures i.inputSchema == old(i.inputSchema) && i.outputSchema == old(i.outputSchema)
  {
    i.AddMethod(m1);
    i.AddMethod(m2);
  }
}
