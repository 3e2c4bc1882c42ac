/** The binding's own patch test, restated: for the path
    `network.ethernets.eth0.dhcp4` and the payload `false`, the patch is
    the four-level nested document the test expects. */
module YamlPatchExample {
  import opened Common
  import DottedPath
  import YamlPatch

  /** The path and the document of the binding's patch test. */
  const TestPath: string := "network.ethernets.eth0.dhcp4"
  const TestDocument: string :=
    "network:\n" + "  ethernets:\n" + "    eth0:\n" + "      dhcp4: false\n"

  /** The dotted path of the binding's patch test splits into its four keys. */
  lemma TestPathComponents()
    ensures DottedPath.Split(TestPath, '.') == ["network", "ethernets", "eth0", "dhcp4"]
  {
    var keys := ["network", "ethernets", "eth0", "dhcp4"];
    assert DottedPath.NoneContains(keys, '.');
    assert DottedPath.Join(keys, '.') == TestPath;
    DottedPath.SplitJoin(keys, '.');
  }

  /** The lines of the test's nested document. */
  const TestLines: seq<string> := ["network:", "  ethernets:", "    eth0:", "      dhcp4: false"]
  const TestKeys: seq<string> := ["network", "ethernets", "eth0", "dhcp4"]

  lemma TestLinesFrom(k: nat)
    requires k < 4
    ensures YamlPatch.NestedLines(TestKeys[k..], "false", k) == TestLines[k..]
    decreases 4 - k
  {
    if k == 3 {
      assert YamlPatch.Spaces(6) + "dhcp4" + ": " + "false" == "      dhcp4: false";
    } else {
      TestLinesFrom(k + 1);
      assert TestKeys[k..][1..] == TestKeys[k + 1..];
      assert TestLines[k..] == [TestLines[k]] + TestLines[k + 1..];
      assert YamlPatch.Spaces(2 * k) + TestKeys[k] + ":" == TestLines[k];
    }
  }

  /** The test's lines, each ended by a newline, are the test's text. */
  lemma TestUnlines()
    ensures YamlPatch.Unlines(TestLines) == TestDocument
  {
    assert YamlPatch.Unlines(TestLines[3..]) == "      dhcp4: false\n" by {
      assert TestLines[3..][1..] == [];
    }
    assert YamlPatch.Unlines(TestLines[2..]) == "    eth0:\n" + "      dhcp4: false\n" by {
      assert TestLines[2..][1..] == TestLines[3..];
    }
    assert YamlPatch.Unlines(TestLines[1..]) == "  ethernets:\n" + ("    eth0:\n" + "      dhcp4: false\n") by {
      assert TestLines[1..][1..] == TestLines[2..];
    }
  }

  /** The nested document for the test's keys and payload is the text the
      test expects. */
  lemma TestNestedDocument()
    ensures YamlPatch.Unlines(YamlPatch.NestedLines(TestKeys, "false", 0)) == TestDocument
  {
    TestLinesFrom(0);
    assert TestKeys[0..] == TestKeys && TestLines[0..] == TestLines;
    TestUnlines();
  }

  /** Any tab-free dotted path with the test's keys, patched with `false`,
      gives the test's document when the library renders the nested
      document. */
  lemma PatchDocumentForTestKeys(lib: YamlPatch.PatchFn, confPath: string)
    requires '\0' !in confPath && '\t' !in confPath
    requires DottedPath.Split(confPath, '.') == TestKeys
    requires YamlPatch.AlwaysRendersNested(lib)
    ensures YamlPatch.CreateYamlPatch(confPath, "false", lib) == Ok(TestDocument)
  {
    assert YamlPatch.RendersNested(lib, YamlPatch.RequestFor(confPath, "false"));
    YamlPatch.PatchNestsDottedKeys(lib, confPath, "false", TestKeys);
    TestNestedDocument();
  }

  /** The binding's patch test: when the library renders the nested
      document, patching `network.ethernets.eth0.dhcp4` with `false` yields
      exactly the text the test expects. */
  lemma TestPatchDocument(lib: YamlPatch.PatchFn)
    requires YamlPatch.AlwaysRendersNested(lib)
    ensures YamlPatch.CreateYamlPatch(TestPath, "false", lib) == Ok(TestDocument)
  {
    TestPathChars();
    TestPathKeys();
    PatchDocumentForTestKeys(lib, TestPath);
  }

  /** The test path holds neither NUL nor tab. */
  lemma TestPathChars()
    ensures '\0' !in TestPath && '\t' !in TestPath
  {
  }

  /** The test path splits into the test's keys. */
  lemma TestPathKeys()
    ensures DottedPath.Split(TestPath, '.') == TestKeys
  {
    TestPathComponents();
  }
}
