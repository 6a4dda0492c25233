/** The JSON shapes of the font-files response. */
module Dto {

  /** One face as sent to the client; weight and stretch are the canonical wire numbers. */
  datatype FontDescriptorDto = FontDescriptorDto(
    postscript: string,
    family: string,
    style: string,
    weight: nat,
    stretch: nat,
    italic: bool)

  /** The response: the protocol version and the faces grouped by file path. */
  datatype FontFilesDto = FontFilesDto(version: nat, fontFiles: map<string, seq<FontDescriptorDto>>)
}
