/** Names, URLs and guards that the official-portal scripts share. */
module OfficialPortal {
  import opened Text
  import opened BindingStore

  const OFFICIAL_HOST := "supplier.tiandy.com"
  const OFFICIAL_URL := "https://" + OFFICIAL_HOST
  const DEMO_HOST := "192.168.102.247"
  const PRODUCTION_NAME := "天地伟业-芯云"
  const REHEARSAL_MARK := "演练"
  const TEST_DB := "nodeskclaw_task"
  const PRODUCT_DB := "rpa_autotask"
  const PRODUCT_ENGINE := "http://192.168.102.247:4610"
  const LOCAL_HOST := "127.0.0.1"

  const BROWSER := JObject(map[
    "mode" := JText("MANAGED"),
    "headless" := JBool(true),
    "channel" := JText("chromium"),
    "profileRef" := JNull,
    "cdpEndpointRef" := JNull,
    "closePolicy" := JText("CLOSE_ON_FINISH")])

  /** `is_demo_portal`; `fold` is `str.casefold`. */
  predicate IsDemo(name: string, url: string, fold: string -> string) {
    Contains(fold(name), "test") || Contains(url, DEMO_HOST)
  }

  /** A URL with the full official address also contains the bare host. */
  lemma OfficialUrlHasHost(url: string)
    requires Contains(url, OFFICIAL_URL)
    ensures Contains(url, OFFICIAL_HOST)
  {
    assert OFFICIAL_URL == "https://" + OFFICIAL_HOST + "";
    ContainsInMiddle("https://", OFFICIAL_HOST, "", OFFICIAL_HOST) by {
      assert At(OFFICIAL_HOST, 0, OFFICIAL_HOST);
    }
    ContainsTransitive(url, OFFICIAL_URL, OFFICIAL_HOST);
  }

  /** The production name carries no rehearsal mark. */
  lemma ProductionIsNoRehearsal()
    ensures !Contains(PRODUCTION_NAME, REHEARSAL_MARK)
  {
    forall i | 0 <= i <= |PRODUCTION_NAME| ensures !At(PRODUCTION_NAME, i, REHEARSAL_MARK) {
      if i + 2 <= |PRODUCTION_NAME| {
        assert PRODUCTION_NAME[i..i + 2][0] == PRODUCTION_NAME[i];
        assert PRODUCTION_NAME[i] in PRODUCTION_NAME;
        assert '演' !in PRODUCTION_NAME;
      }
    }
  }
}
