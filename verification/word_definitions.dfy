/** The decoded shape of one dictionary-API entry. These types carry no
    behaviour; optional JSON fields are Options and arrays keep server order. */
module WordDefinitions {
  import opened Wrappers

  /** One written pronunciation, possibly with a link to an audio file. */
  datatype Phonetic = Phonetic(text: Option<string>, audio: Option<string>)

  /** One sense of a word within a part of speech. */
  datatype Definition = Definition(
    definition: string,
    example: Option<string>,
    synonyms: Option<seq<string>>,
    antonyms: Option<seq<string>>)

  /** The senses of a word for one part of speech. */
  datatype Meaning = Meaning(partOfSpeech: string, definitions: seq<Definition>)

  /** A dictionary entry; `word` is spelt as the server returned it. */
  datatype WordDefinitionResponse = WordDefinitionResponse(
    word: string,
    phonetic: Option<string>,
    phonetics: seq<Phonetic>,
    meanings: seq<Meaning>)
}
