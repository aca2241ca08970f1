/** The FHIR-shaped records that the PAMA component reads and writes. */
module Fhir {
  import opened Wrappers

  /** A terminology entry; `code` identifies it within its terminology set. */
  datatype Coding = Coding(system: Option<string>, code: string, display: string)

  /** `valueCodeableConcept`: its `coding` array may be absent in the incoming JSON. */
  datatype CodeableConcept = CodeableConcept(coding: Option<seq<Coding>>)

  /** One entry of a resource's `extension` array. */
  datatype Extension = Extension(url: string, valueCodeableConcept: Option<CodeableConcept>)

  /** The part of a FHIR resource the rating extractor looks at. */
  datatype Resource = Resource(id: Option<string>, extension: Option<seq<Extension>>)
}
