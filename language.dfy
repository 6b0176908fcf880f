/**
 * Language selection: the `ja` normalisation of `getLanguage`
 * (manual.js:29-36), with the browser's language passed in instead of read
 * from `window.navigator`, and the fallback rule that keeps a language only
 * when it is one of the available keys and otherwise uses "default"
 * (manual.js:56-58, 70-72 and 133-135).
 */
module Language {

  const DEFAULT: string := "default"
  const JAPANESE: string := "ja"

  /**
   * `tag.split("-")[0]`: the text before the first `-`, or the whole tag
   * when it has none. It plays the part of the primary language subtag of a
   * BCP 47 tag (section 2.2.1 of RFC 5646).
   */
  function PrimaryTag(tag: string): (primary: string)
    ensures primary <= tag
    ensures '-' !in primary
    ensures |primary| == |tag| || tag[|primary|] == '-'
  {
    if tag == [] || tag[0] == '-' then [] else [tag[0]] + PrimaryTag(tag[1..])
  }

  /** The three properties in the contract of PrimaryTag determine its result. */
  lemma {:induction false} PrimaryTagUnique(tag: string, primary: string)
    requires primary <= tag && '-' !in primary
    requires |primary| == |tag| || tag[|primary|] == '-'
    ensures primary == PrimaryTag(tag)
  {
    if tag != [] && tag[0] != '-' && primary != [] {
      PrimaryTagUnique(tag[1..], primary[1..]);
    }
  }

  /** The tag is "ja" or starts with "ja-". */
  predicate IsJapaneseTag(tag: string) {
    |tag| >= 2 && tag[..2] == JAPANESE && (|tag| == 2 || tag[2] == '-')
  }

  /** The primary part of a tag is "ja" exactly when the tag is "ja" or starts with "ja-". */
  lemma JapanesePrimary(tag: string)
    ensures PrimaryTag(tag) == JAPANESE <==> IsJapaneseTag(tag)
  {
    var primary := PrimaryTag(tag);
    if IsJapaneseTag(tag) {
      var rest := tag[2..];
      assert PrimaryTag(rest) == [];
      assert tag[0] == 'j' && tag[1] == 'a';
      assert tag[1..][1..] == rest;
      assert PrimaryTag(tag[1..]) == ['a'] + PrimaryTag(rest);
      assert primary == ['j'] + PrimaryTag(tag[1..]);
    }
    if primary == JAPANESE {
      assert primary <= tag;
      assert tag[..2] == primary;
    }
  }

  /** `getLanguage` after the browser read: any tag whose primary part is `ja` becomes "ja". */
  function NormalizeLanguage(tag: string): (lang: string)
    ensures lang == JAPANESE <==> IsJapaneseTag(tag)
    ensures lang != JAPANESE ==> lang == tag
  {
    JapanesePrimary(tag);
    if PrimaryTag(tag) == JAPANESE then JAPANESE else tag
  }

  /** Normalising twice is normalising once. */
  lemma NormalizeIdempotent(tag: string)
    ensures NormalizeLanguage(NormalizeLanguage(tag)) == NormalizeLanguage(tag)
  {
  }

  /** `keys.some(function (k) { return k === lang; })`. */
  function AnyEquals(keys: seq<string>, lang: string): (found: bool)
    ensures found <==> lang in keys
  {
    |keys| > 0 && (keys[0] == lang || AnyEquals(keys[1..], lang))
  }

  /** Keep `lang` when it is one of `available`, otherwise use "default". */
  function Fallback(lang: string, available: seq<string>): (chosen: string)
    ensures chosen == if lang in available then lang else DEFAULT
    ensures chosen in available || chosen == DEFAULT
    ensures DEFAULT in available ==> chosen in available
  {
    if !AnyEquals(available, lang) then DEFAULT else lang
  }

  /** The language a page or a canvas uses: the browser's language, normalised, then the fallback. */
  function SelectLanguage(browserLanguage: string, available: seq<string>): (chosen: string)
    ensures IsJapaneseTag(browserLanguage) ==> chosen == if JAPANESE in available then JAPANESE else DEFAULT
    ensures !IsJapaneseTag(browserLanguage) ==>
      chosen == if browserLanguage in available then browserLanguage else DEFAULT
    ensures DEFAULT in available ==> chosen in available
  {
    Fallback(NormalizeLanguage(browserLanguage), available)
  }

  /** Choosing again from the same keys keeps the choice. */
  lemma FallbackIdempotent(lang: string, available: seq<string>)
    ensures Fallback(Fallback(lang, available), available) == Fallback(lang, available)
  {
  }

  /** A `ja-*` browser selects "ja" exactly when "ja" is available. */
  lemma JapaneseSelected(browserLanguage: string, available: seq<string>)
    requires PrimaryTag(browserLanguage) == JAPANESE
    ensures SelectLanguage(browserLanguage, available) == (if JAPANESE in available then JAPANESE else DEFAULT)
  {
    var primary := PrimaryTag(browserLanguage);
    assert browserLanguage[..2] == primary;
  }

  lemma SelectLanguageExamples()
    ensures SelectLanguage("ja-JP", ["default", "ja"]) == "ja"
    ensures SelectLanguage("en-US", ["default", "ja"]) == "default"
    ensures SelectLanguage("jav", ["default", "ja", "jav"]) == "jav"
  {
    JapaneseSelected("ja-JP", ["default", "ja"]);
    assert PrimaryTag("ja-JP") == "ja";
  }

}
