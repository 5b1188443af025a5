/** `scripts/tranlate_sources.py`: every English source entry gets its text
    translated to German and is relabelled "de"; all other entries pass
    through as they are. */
module TranslateSources {
  import opened Results
  import opened Text
  import opened ChunkRecords

  /** The Google translator: `None` when `translator.translate` raises. */
  type Translator = string -> Option<string>

  /** `translate_text`: the translation, or the original text when the
      translator fails. */
  function TranslateText(translator: Translator, text: string): (r: string)
    ensures translator(text).Some? ==> r == translator(text).value
    ensures translator(text).None? ==> r == text
  {
    match translator(text)
    case Some(t) => t
    case None => text
  }

  /** `entry.get("sprache", "").lower() == "en"`. */
  predicate IsEnglish(entry: Entry)
  {
    Lower(if "sprache" in entry then entry["sprache"] else "") == "en"
  }

  /** Lines 27-31 for one entry: `None` is the `KeyError` of an English entry
      without a text. */
  function Relabel(translator: Translator, entry: Entry): (r: Option<Entry>)
    ensures r.None? <==> IsEnglish(entry) && "text" !in entry
  {
    if !IsEnglish(entry) then Some(entry)
    else if "text" !in entry then None
    else Some(entry["text" := TranslateText(translator, entry["text"])]["sprache" := "de"])
  }

  /** What relabelling does to one entry: an English one keeps its keys and
      every other field, gets the translated (or, on failure, the original)
      text and sprache "de"; any other entry is returned unchanged. */
  lemma RelabelMeaning(translator: Translator, entry: Entry)
    requires Relabel(translator, entry).Some?
    ensures var out := Relabel(translator, entry).value;
      && out.Keys == entry.Keys + (if IsEnglish(entry) then {"sprache"} else {})
      && (IsEnglish(entry) ==>
            && out["sprache"] == "de"
            && out["text"] == TranslateText(translator, entry["text"])
            && forall k :: k in entry && k != "text" && k != "sprache" ==> out[k] == entry[k])
      && (!IsEnglish(entry) <==> out == entry)
  {
    var out := Relabel(translator, entry).value;
    if IsEnglish(entry) {
      assert "sprache" in entry;
      assert out["sprache"] != (if "sprache" in entry then entry["sprache"] else "") by {
        NotEnglishDe();
      }
    }
  }

  /** "de" does not lower-case to "en". */
  lemma NotEnglishDe()
    ensures Lower("de") == "de" && Lower("de") != "en"
  {
    assert LowerChar('d') == 'd' && LowerChar('e') == 'e';
  }

  /** A relabelled entry is never English, so a second pass leaves it alone. */
  lemma RelabelledIsNotEnglish(translator: Translator, entry: Entry)
    requires Relabel(translator, entry).Some?
    ensures !IsEnglish(Relabel(translator, entry).value)
    ensures Relabel(translator, Relabel(translator, entry).value) == Relabel(translator, entry)
  {
    if IsEnglish(entry) {
      NotEnglishDe();
    }
  }

  /** `main` without the file I/O: the entries of `extracted_sources.jsonl`
      in, those of `translated_sources.jsonl` out; `Err(i)` is the `KeyError`
      at entry `i`, which ends the script before anything is written. */
  method TranslateAll(translator: Translator, entries: seq<Entry>) returns (r: Result<seq<Entry>, nat>)
    ensures r.Ok? <==> forall i :: 0 <= i < |entries| ==> Relabel(translator, entries[i]).Some?
    ensures r.Ok? ==>
      && |r.value| == |entries|
      && forall i :: 0 <= i < |entries| ==> Relabel(translator, entries[i]) == Some(r.value[i])
    ensures r.Err? ==> r.error < |entries| && Relabel(translator, entries[r.error]).None?
  {
    var translatedData: seq<Entry> := [];
    for i := 0 to |entries|
      invariant |translatedData| == i
      invariant forall k :: 0 <= k < i ==> Relabel(translator, entries[k]) == Some(translatedData[k])
    {
      var entry := entries[i];
      if IsEnglish(entry) {
        if "text" !in entry {
          return Err(i);
        }
        var translatedText := TranslateText(translator, entry["text"]);
        entry := entry["text" := translatedText];
        entry := entry["sprache" := "de"];
      }
      translatedData := translatedData + [entry];
    }
    return Ok(translatedData);
  }

  /** After the pass no entry is English, in any letter case. */
  lemma NoEnglishLeft(translator: Translator, entries: seq<Entry>, out: seq<Entry>)
    requires |out| == |entries|
    requires forall i :: 0 <= i < |entries| ==> Relabel(translator, entries[i]) == Some(out[i])
    ensures forall i :: 0 <= i < |out| ==> !IsEnglish(out[i])
  {
    forall i | 0 <= i < |out|
      ensures !IsEnglish(out[i])
    {
      RelabelledIsNotEnglish(translator, entries[i]);
    }
  }
}
