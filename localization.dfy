/**
  The localization of the user interface: the Italian and English string tables, and the
  Localization object, which holds the current language and the callbacks that refresh the
  interface when the language changes.
 */
module Localization {
  import opened Wrappers

  const Italian: map<string, string> := map[
    "app_title" := "Google Street View Downloader - Versione Avanzata",
    "tab_streetview" := "Street View",
    "tab_local_files" := "File Locali",
    "tab_batch" := "Download Multipli",
    "sv_title" := "Download Singolo da Google Street View",
    "sv_url_label" := "URL Google Maps:",
    "sv_url_placeholder" := "Incolla qui l\'URL di Google Street View...",
    "sv_extract_btn" := "Estrai PanoID",
    "sv_download_btn" := "Download",
    "sv_save_btn" := "Salva Immagine",
    "sv_options_title" := "Opzioni Download",
    "sv_resolution_label" := "Risoluzione:",
    "sv_overlap_label" := "Overlap SfM:",
    "sv_overlap_suffix" := "% (per photogrammetry)",
    "sv_format_label" := "Formato Output:",
    "sv_format_equirect" := "Equirettangolare",
    "sv_format_cubemap" := "Cubemap",
    "sv_preview_title" := "Anteprima",
    "lf_title" := "Conversione File Locali",
    "lf_input_label" := "File/Cartella Input:",
    "lf_browse_btn" := "Sfoglia",
    "lf_output_label" := "Cartella Output:",
    "lf_convert_title" := "Converti da:",
    "lf_convert_equirect_cube" := "Equirettangolare \U{2192} Cubemap",
    "lf_convert_cube_equirect" := "Cubemap \U{2192} Equirettangolare",
    "lf_overlap_label" := "Overlap SfM:",
    "lf_overlap_suffix" := "% (solo per equirettangolari)",
    "lf_convert_btn" := "Avvia Conversione",
    "batch_title" := "Download Multipli",
    "batch_urls_label" := "Lista URL:",
    "batch_add_btn" := "Aggiungi URL",
    "batch_import_btn" := "Importa da File",
    "batch_export_btn" := "Esporta Lista",
    "batch_clear_btn" := "Svuota Lista",
    "batch_output_label" := "Cartella Output:",
    "batch_options_title" := "Opzioni Batch",
    "batch_resolution_label" := "Risoluzione:",
    "batch_overlap_label" := "Overlap SfM:",
    "batch_format_label" := "Formato:",
    "batch_start_btn" := "Avvia Download",
    "batch_stop_btn" := "Ferma Download",
    "status_ready" := "Pronto",
    "status_extracting" := "Estrazione PanoID...",
    "status_downloading" := "Download in corso...",
    "status_converting" := "Conversione in corso...",
    "status_complete" := "Completato!",
    "status_error" := "Errore",
    "status_overlap_applying" := "Applicazione overlap",
    "panoid_extracted" := "PanoID estratto",
    "download_complete" := "Download completato! Immagine",
    "cubemap_generated" := "Cubemap generato! 6 facce",
    "overlap_info" := "overlap",
    "from_equirect_overlap" := "da equirect con overlap",
    "processing" := "Elaborazione",
    "tiles" := "tiles",
    "of" := "di",
    "error_invalid_url" := "URL non valido o PanoID non trovato",
    "error_download_failed" := "Download fallito",
    "error_conversion_failed" := "Conversione fallita",
    "error_no_image" := "Nessuna immagine da salvare",
    "error_save_failed" := "Salvataggio fallito",
    "save_dialog_title" := "Salva Immagine",
    "folder_dialog_title" := "Seleziona Cartella",
    "file_dialog_title" := "Seleziona File",
    "confirm_title" := "Conferma",
    "info_title" := "Informazione",
    "warning_title" := "Attenzione",
    "language_label" := "Lingua:",
    "language_italian" := "Italiano",
    "language_english" := "English",
    "validate_btn" := "Valida",
    "clear_btn" := "\U{1F5D1}\U{FE0F} Pulisci",
    "no_image_loaded" := "Nessuna immagine caricata",
    "menu_file" := "File",
    "menu_exit" := "Esci",
    "menu_language" := "Lingua"
  ]

  const English: map<string, string> := map[
    "app_title" := "Google Street View Downloader - Advanced Version",
    "tab_streetview" := "Street View",
    "tab_local_files" := "Local Files",
    "tab_batch" := "Batch Download",
    "sv_title" := "Single Download from Google Street View",
    "sv_url_label" := "Google Maps URL:",
    "sv_url_placeholder" := "Paste Google Street View URL here...",
    "sv_extract_btn" := "Extract PanoID",
    "sv_download_btn" := "Download",
    "sv_save_btn" := "Save Image",
    "sv_options_title" := "Download Options",
    "sv_resolution_label" := "Resolution:",
    "sv_overlap_label" := "SfM Overlap:",
    "sv_overlap_suffix" := "% (for photogrammetry)",
    "sv_format_label" := "Output Format:",
    "sv_format_equirect" := "Equirectangular",
    "sv_format_cubemap" := "Cubemap",
    "sv_preview_title" := "Preview",
    "lf_title" := "Local File Conversion",
    "lf_input_label" := "Input File/Folder:",
    "lf_browse_btn" := "Browse",
    "lf_output_label" := "Output Folder:",
    "lf_convert_title" := "Convert from:",
    "lf_convert_equirect_cube" := "Equirectangular \U{2192} Cubemap",
    "lf_convert_cube_equirect" := "Cubemap \U{2192} Equirectangular",
    "lf_overlap_label" := "SfM Overlap:",
    "lf_overlap_suffix" := "% (equirectangular only)",
    "lf_convert_btn" := "Start Conversion",
    "batch_title" := "Batch Download",
    "batch_urls_label" := "URL List:",
    "batch_add_btn" := "Add URL",
    "batch_import_btn" := "Import from File",
    "batch_export_btn" := "Export List",
    "batch_clear_btn" := "Clear List",
    "batch_output_label" := "Output Folder:",
    "batch_options_title" := "Batch Options",
    "batch_resolution_label" := "Resolution:",
    "batch_overlap_label" := "SfM Overlap:",
    "batch_format_label" := "Format:",
    "batch_start_btn" := "Start Download",
    "batch_stop_btn" := "Stop Download",
    "status_ready" := "Ready",
    "status_extracting" := "Extracting PanoID...",
    "status_downloading" := "Downloading...",
    "status_converting" := "Converting...",
    "status_complete" := "Complete!",
    "status_error" := "Error",
    "status_overlap_applying" := "Applying overlap",
    "panoid_extracted" := "PanoID extracted",
    "download_complete" := "Download complete! Image",
    "cubemap_generated" := "Cubemap generated! 6 faces",
    "overlap_info" := "overlap",
    "from_equirect_overlap" := "from equirect with overlap",
    "processing" := "Processing",
    "tiles" := "tiles",
    "of" := "of",
    "error_invalid_url" := "Invalid URL or PanoID not found",
    "error_download_failed" := "Download failed",
    "error_conversion_failed" := "Conversion failed",
    "error_no_image" := "No image to save",
    "error_save_failed" := "Save failed",
    "save_dialog_title" := "Save Image",
    "folder_dialog_title" := "Select Folder",
    "file_dialog_title" := "Select File",
    "confirm_title" := "Confirm",
    "info_title" := "Information",
    "warning_title" := "Warning",
    "language_label" := "Language:",
    "language_italian" := "Italiano",
    "language_english" := "English",
    "validate_btn" := "Validate",
    "clear_btn" := "\U{1F5D1}\U{FE0F} Clear",
    "no_image_loaded" := "No image loaded",
    "menu_file" := "File",
    "menu_exit" := "Exit",
    "menu_language" := "Language"
  ]

  /** TRANSLATIONS: language code to string table. */
  const Translations: map<string, map<string, string>> := map["it" := Italian, "en" := English]

  /** The language codes in the order the dictionary lists them. */
  const Languages: seq<string> := ["it", "en"]

  /** The codes of the tables, for the membership test of set_language. */
  const LanguageCodes: set<string> := {"it", "en"}

  /** The list of codes has no repetition and names exactly the languages of the tables. */
  lemma LanguagesListed()
    ensures |Languages| == 2 && Languages[0] != Languages[1]
    ensures forall i :: 0 <= i < |Languages| ==> Languages[i] in Translations
    ensures forall code :: code in Translations ==> code in Languages
    ensures Translations.Keys == LanguageCodes
  {
  }

  /**
    t(key, default) while `language` is current: that language's entry; failing that (an
    unknown language or a missing key) the English entry; failing that the default, or the key
    itself when no default is given. No lookup can fail.
   */
  function Translate(language: string, key: string, default: Option<string>): string {
    if language in Translations && key in Translations[language] then Translations[language][key]
    else if key in Translations["en"] then Translations["en"][key]
    else default.GetOr(key)
  }

  /** The three levels of the fallback, each tied to where the text comes from. */
  lemma TranslateFallback(language: string, key: string, default: Option<string>)
    ensures language in Translations && key in Translations[language] ==>
      Translate(language, key, default) == Translations[language][key]
    ensures !(language in Translations && key in Translations[language]) && key in English ==>
      Translate(language, key, default) == English[key]
    ensures !(language in Translations && key in Translations[language]) && key !in English ==>
      Translate(language, key, default) == (if default.Some? then default.value else key)
  {
  }

  /** The result is always an entry of a table, the default, or the key. */
  lemma TranslateSource(language: string, key: string, default: Option<string>)
    ensures var text := Translate(language, key, default);
      || (exists code :: code in Translations && key in Translations[code] && text == Translations[code][key])
      || default == Some(text)
      || text == key
  {
    if language in Translations && key in Translations[language] {
    } else if key in English {
      assert "en" in Translations && Translations["en"] == English;
    }
  }

  /** A callback registered with register_callback, identified by its registration. */
  type Callback = nat

  /** The callbacks, in order, whose call raises: their exception is caught and reported. */
  function Raising(cs: seq<Callback>, raises: Callback -> bool): seq<Callback> {
    if cs == [] then []
    else Raising(cs[..|cs| - 1], raises) + (if raises(cs[|cs| - 1]) then [cs[|cs| - 1]] else [])
  }

  /** Exactly the raising callbacks are reported, and never more reports than calls. */
  lemma {:induction false} RaisingMembers(cs: seq<Callback>, raises: Callback -> bool)
    ensures |Raising(cs, raises)| <= |cs|
    ensures forall c :: c in Raising(cs, raises) <==> c in cs && raises(c)
  {
    if cs != [] {
      var init := cs[..|cs| - 1];
      RaisingMembers(init, raises);
      assert cs == init + [cs[|cs| - 1]];
    }
  }

  /** Raising grows by the last callback exactly when that one raises. */
  lemma RaisingSnoc(cs: seq<Callback>, c: Callback, raises: Callback -> bool)
    ensures Raising(cs + [c], raises) == Raising(cs, raises) + (if raises(c) then [c] else [])
  {
    assert (cs + [c])[..|cs|] == cs;
  }

  class Localizer {
    /** The language of t(); any code the constructor was given, then only known codes. */
    var currentLanguage: string
    /** The registered callbacks, in registration order. */
    var callbacks: seq<Callback>
    /** Every callback call made so far, in order. */
    var invoked: seq<Callback>
    /** The callbacks whose exception was caught and reported, in order. */
    var reported: seq<Callback>
    /** The language given to the constructor. */
    ghost var initialLanguage: string

    /** The current language is the initial one or one of the tables. */
    ghost predicate Valid()
      reads this
    {
      currentLanguage == initialLanguage || currentLanguage in LanguageCodes
    }

    /** Localization(language='it'): the constructor does not check the code. */
    constructor (language: string)
      ensures Valid()
      ensures currentLanguage == language && initialLanguage == language
      ensures callbacks == [] && invoked == [] && reported == []
    {
      currentLanguage := language;
      initialLanguage := language;
      callbacks := [];
      invoked := [];
      reported := [];
    }

    /**
      set_language: an unknown code changes nothing and calls no callback; a known one becomes
      current and every registered callback is called once, in registration order, a raising
      callback being reported without stopping the others.
     */
    method SetLanguage(language: string, raises: Callback -> bool)
      requires Valid()
      modifies this
      ensures Valid()
      ensures callbacks == old(callbacks) && initialLanguage == old(initialLanguage)
      ensures language !in LanguageCodes ==>
        currentLanguage == old(currentLanguage) && invoked == old(invoked) && reported == old(reported)
      ensures language in LanguageCodes ==>
        && currentLanguage == language
        && invoked == old(invoked) + old(callbacks)
        && reported == old(reported) + Raising(old(callbacks), raises)
    {
      if language in LanguageCodes {
        currentLanguage := language;
        var cs, calls, caught := callbacks, invoked, reported;
        var i := 0;
        while i < |cs|
          invariant 0 <= i <= |cs|
          invariant callbacks == cs == old(callbacks) && currentLanguage == language
          invariant initialLanguage == old(initialLanguage)
          invariant calls == old(invoked) + cs[..i]
          invariant caught == old(reported) + Raising(cs[..i], raises)
        {
          var c := cs[i];
          calls := calls + [c];
          if raises(c) {
            caught := caught + [c];
          }
          RaisingSnoc(cs[..i], c, raises);
          assert cs[..i + 1] == cs[..i] + [c];
          i := i + 1;
        }
        assert cs[..i] == cs;
        invoked, reported := calls, caught;
      }
    }

    /** get_language. */
    function GetLanguage(): (code: string)
      reads this
      ensures Valid() ==> code == initialLanguage || code in LanguageCodes
    {
      currentLanguage
    }

    /** get_available_languages: the codes of the tables, Italian first. */
    function GetAvailableLanguages(): (codes: seq<string>)
      ensures codes == ["it", "en"]
      ensures forall code :: code in codes <==> code in LanguageCodes
    {
      Languages
    }

    /** register_callback: the callback goes to the end of the list; nothing else changes. */
    method RegisterCallback(c: Callback)
      requires Valid()
      modifies this
      ensures Valid()
      ensures callbacks == old(callbacks) + [c]
      ensures currentLanguage == old(currentLanguage) && invoked == old(invoked) && reported == old(reported)
      ensures initialLanguage == old(initialLanguage)
    {
      callbacks := callbacks + [c];
    }

    /** t(key, default) in the current language. */
    function T(key: string, default: Option<string>): (text: string)
      reads this
      ensures currentLanguage in Translations && key in Translations[currentLanguage] ==>
        text == Translations[currentLanguage][key]
      ensures !(currentLanguage in Translations && key in Translations[currentLanguage]) && key in English ==>
        text == English[key]
      ensures !(currentLanguage in Translations && key in Translations[currentLanguage]) && key !in English ==>
        text == (if default.Some? then default.value else key)
    {
      TranslateFallback(currentLanguage, key, default);
      Translate(currentLanguage, key, default)
    }
  }
}
