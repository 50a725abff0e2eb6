/** `component_translation_file`: where a component's translation file lives. */
module Paths {
  import opened Outcomes
  import opened Dotted

  /** What the registry reports about an integration: its directory (`file_path`),
      that directory's final name (`file_path.name`) and its display name. */
  datatype Integration = Integration(filePath: string, dirName: string, name: string)

  /** `<root>/.translations/<file>`. */
  function TranslationsFile(root: string, file: string): string
  {
    root + "/.translations/" + file
  }

  predicate EndsWith(s: string, suffix: string)
  {
    |suffix| <= |s| && s[|s| - |suffix|..] == suffix
  }

  /** The translation file of `component` in `language`, or None when the
      integration is a single module file and so cannot ship translations. */
  function ComponentTranslationFile(component: string, language: string, integration: Integration): (r: Option<string>)
    ensures r.Some? ==> integration.filePath + "/.translations/" <= r.value
    ensures r.Some? ==> EndsWith(r.value, language + ".json")
  {
    var parts := Split(component);
    var domain := parts[|parts| - 1];
    if |parts| == 2 then
      var file := parts[0] + "." + language + ".json";
      assert file == (parts[0] + ".") + (language + ".json");
      assert TranslationsFile(integration.filePath, file) == (integration.filePath + "/.translations/" + parts[0] + ".") + (language + ".json");
      Some(TranslationsFile(integration.filePath, file))
    else if integration.dirName != domain then
      None
    else
      Some(TranslationsFile(integration.filePath, language + ".json"))
  }

  /** A platform id `a.b` names the file `a.<language>.json` in the integration's
      translations directory, whatever that directory is called. */
  lemma PlatformPath(platform: string, domain: string, language: string, integration: Integration)
    requires '.' !in platform && '.' !in domain
    ensures ComponentTranslationFile(platform + "." + domain, language, integration)
      == Some(integration.filePath + "/.translations/" + platform + "." + language + ".json")
  {
    SegmentsOfSimpleIds(platform, domain);
    assert TranslationsFile(integration.filePath, platform + "." + language + ".json")
      == integration.filePath + "/.translations/" + platform + "." + language + ".json";
  }

  /** Any other id has a file exactly when the integration's directory is named
      after the id's last segment, and then it is `<language>.json`. */
  lemma NonPlatformPath(component: string, language: string, integration: Integration)
    requires |Split(component)| != 2
    ensures ComponentTranslationFile(component, language, integration).None?
      <==> integration.dirName != LastSegment(component)
    ensures ComponentTranslationFile(component, language, integration).Some? ==>
      ComponentTranslationFile(component, language, integration).value
        == integration.filePath + "/.translations/" + language + ".json"
  {
  }

  /** A dot-free domain id: no file exactly when the integration is a single module. */
  lemma DomainPath(domain: string, language: string, integration: Integration)
    requires '.' !in domain
    ensures ComponentTranslationFile(domain, language, integration).None? <==> integration.dirName != domain
    ensures ComponentTranslationFile(domain, language, integration).Some? ==>
      ComponentTranslationFile(domain, language, integration).value
        == integration.filePath + "/.translations/" + language + ".json"
  {
    SplitJoin([domain]);
    SegmentsOfSimpleIds(domain, domain);
    NonPlatformPath(domain, language, integration);
  }
}
