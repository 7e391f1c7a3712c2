/** The parts of goa's design model that gorma's generator reads: attributes
    with a type kind, validations, a description and a metadata map; objects
    mapping field names to attribute definitions; and user types. */
module Design {
  import opened Metadata

  /** goa's type kinds. */
  datatype Kind = BooleanKind | IntegerKind | NumberKind | StringKind | ArrayKind | ObjectKind | HashKind | AnyKind

  /** A validation attached to an attribute: a Format validation with its
      format name, or any other kind of validation. */
  datatype Validation = FormatValidation(format: string) | OtherValidation(name: string)

  /** design.AttributeDefinition. Only the metadata map is changed in place by
      gorma (setupIDAttribute); the rest is fixed once built. */
  class Attribute {
    const kind: Kind
    const validations: seq<Validation>
    const description: string
    var metadata: MetadataDef

    constructor (kind: Kind, validations: seq<Validation>, description: string, metadata: MetadataDef)
      ensures this.kind == kind && this.validations == validations
      ensures this.description == description && this.metadata == metadata
    {
      this.kind := kind;
      this.validations := validations;
      this.description := description;
      this.metadata := metadata;
    }
  }

  /** design.Object: a map from field names to attribute definitions, which Go
      shares by reference. */
  class Object {
    var fields: map<string, Attribute>

    constructor (fields: map<string, Attribute>)
      ensures this.fields == fields
    {
      this.fields := fields;
    }
  }

  /** design.UserTypeDefinition: its metadata, the names its Required
      validation lists, and its type, which is an object or (null) some other
      data type. */
  class UserType {
    const metadata: MetadataDef
    const required: set<string>
    const objectType: Object?

    constructor (metadata: MetadataDef, required: set<string>, objectType: Object?)
      ensures this.metadata == metadata && this.required == required && this.objectType == objectType
    {
      this.metadata := metadata;
      this.required := required;
      this.objectType := objectType;
    }
  }

  /** A string attribute carrying a Format("date-time") validation. */
  predicate DateTimeFormatted(kind: Kind, validations: seq<Validation>) {
    kind == StringKind && exists i :: 0 <= i < |validations| && validations[i] == FormatValidation("date-time")
  }

  /** isDateTimeFormat: for a string attribute, scans the validations for a
      Format validation whose format is "date-time". */
  method IsDateTimeFormat(res: Attribute) returns (b: bool)
    ensures b <==> DateTimeFormatted(res.kind, res.validations)
  {
    if res.kind == StringKind && |res.validations| > 0 {
      var i := 0;
      while i < |res.validations|
        invariant 0 <= i <= |res.validations|
        invariant forall j :: 0 <= j < i ==> res.validations[j] != FormatValidation("date-time")
      {
        match res.validations[i] {
          case FormatValidation(format) =>
            if format == "date-time" {
              return true;
            }
          case OtherValidation(_) =>
        }
        i := i + 1;
      }
    }
    return false;
  }
}
