/**
 * String handling of checker.py: qualifying a zone name for DNS
 * (`get_master_serial`), normalising a node name and building its result
 * path (`check_nodes`), and deriving the node name a result file is
 * expected to carry (`check_node`).
 */
module Names {
  import opened Wrappers

  /** The characters `rstrip('.yaml')` removes: a set, not a suffix. */
  const STRIP_CHARS: set<char> := {'.', 'y', 'a', 'm', 'l'}

  /**
   * The name handed to the DNS lookups: the key "root" is the apex ".",
   * any other name is made fully qualified by a trailing dot.
   */
  function Qualify(domain: string): (fq: string)
    ensures |fq| > 0 && fq[|fq| - 1] == '.'
    ensures domain == "root" ==> fq == "."
    ensures domain != "root" ==> |fq| == |domain| + 1 && fq[..|domain|] == domain
  {
    if domain == "root" then "." else domain + "."
  }

  /**
   * Two names qualify alike only when they are equal or are "root" and
   * the empty name, which both become the apex.
   */
  lemma QualifyCollisions(a: string, b: string)
    requires Qualify(a) == Qualify(b)
    ensures a == b || {a, b} == {"root", ""}
  {
    if a != "root" && b != "root" {
      assert a == Qualify(a)[..|a|];
      assert b == Qualify(b)[..|b|];
    } else if a == "root" && b != "root" {
      assert |b| == 0;
    } else if a != "root" && b == "root" {
      assert |a| == 0;
    }
  }

  /**
   * `path.split('/')[-1]`: the text after the last slash, or the whole
   * path when it has none.
   */
  function LastComponent(path: string): (c: string)
    ensures '/' !in c
    ensures |c| <= |path|
  {
    if path == [] then []
    else if path[|path| - 1] == '/' then []
    else LastComponent(path[..|path| - 1]) + [path[|path| - 1]]
  }

  /**
   * Python's `s.rstrip(chars)`: removes the longest trailing run of
   * characters that belong to `chars`.
   */
  function RStrip(s: string, chars: set<char>): (r: string)
    ensures r <= s
    ensures r == [] || r[|r| - 1] !in chars
    decreases |s|
  {
    if s != [] && s[|s| - 1] in chars then RStrip(s[..|s| - 1], chars) else s
  }

  /**
   * Stripping removes only characters of `chars`: together with the
   * contract of `RStrip` (a prefix, not ending in `chars`) this makes the
   * removed run the longest one.
   */
  lemma {:induction false} RStripRemovesOnly(s: string, chars: set<char>)
    ensures forall i :: |RStrip(s, chars)| <= i < |s| ==> s[i] in chars
    decreases |s|
  {
    if s != [] && s[|s| - 1] in chars {
      var init := s[..|s| - 1];
      RStripRemovesOnly(init, chars);
      assert forall i :: 0 <= i < |init| ==> init[i] == s[i];
    }
  }

  /** The node name `check_node` expects from the path of its result file. */
  function ExpectedName(path: string): string {
    RStrip(LastComponent(path), STRIP_CHARS)
  }

  /**
   * The expected name is the last path component less its longest trailing
   * run of `.`, `y`, `a`, `m`, `l`: a prefix of that component, not ending
   * in one of those characters, with only such characters cut off.
   */
  lemma ExpectedNameShape(path: string)
    ensures var c, e := LastComponent(path), ExpectedName(path);
      && e <= c && '/' !in e
      && (e == [] || e[|e| - 1] !in STRIP_CHARS)
      && forall i :: |e| <= i < |c| ==> c[i] in STRIP_CHARS
  {
    RStripRemovesOnly(LastComponent(path), STRIP_CHARS);
  }

  /**
   * The name `check_nodes` builds the path from: a trailing dot is added
   * unless there is one. Python's `node[-1]` raises on an empty name,
   * which is `None` here.
   */
  function NormaliseNode(node: string): (r: Option<string>)
    ensures r.None? <==> node == []
    ensures r.Some? ==> node <= r.value && r.value[|r.value| - 1] == '.'
    ensures r.Some? ==> (r.value == node <==> node[|node| - 1] == '.')
    ensures r.Some? ==> |r.value| <= |node| + 1
  {
    if node == [] then None
    else if node[|node| - 1] != '.' then Some(node + ".")
    else Some(node)
  }

  /** Normalising an already normalised name changes nothing. */
  lemma NormaliseIdempotent(node: string)
    requires node != []
    ensures NormaliseNode(NormaliseNode(node).value) == NormaliseNode(node)
  {
  }

  /** `os.path.join(dir, file)` for two components, as POSIX paths join. */
  function Join(dir: string, file: string): (p: string)
    ensures |file| <= |p| && p[|p| - |file|..] == file
    ensures file != [] && file[0] == '/' ==> p == file
    ensures (file == [] || file[0] != '/') ==> dir <= p
    ensures (file == [] || file[0] != '/') && (dir == [] || dir[|dir| - 1] == '/') ==> |p| == |dir| + |file|
    ensures (file == [] || file[0] != '/') && dir != [] && dir[|dir| - 1] != '/' ==>
              |p| == |dir| + 1 + |file| && p[|dir|] == '/'
  {
    if file != [] && file[0] == '/' then file
    else if dir == [] || dir[|dir| - 1] == '/' then dir + file
    else dir + "/" + file
  }

  /** The result file of a normalised node name inside `dir`. */
  function NodePath(dir: string, normalised: string): string {
    Join(dir, normalised + "yaml")
  }

  /**
   * The text after the last slash is the last component: whenever a path
   * is split as `prefix + c` with `prefix` empty or ending in a slash and
   * no slash in `c`, the function returns `c`. Every path has exactly one
   * such split, so this fixes the function completely.
   */
  lemma {:induction false} LastComponentAfterSlash(prefix: string, c: string)
    requires prefix == [] || prefix[|prefix| - 1] == '/'
    requires forall i :: 0 <= i < |c| ==> c[i] != '/'
    ensures LastComponent(prefix + c) == c
    decreases |c|
  {
    var s := prefix + c;
    if c == [] {
      assert s == prefix;
    } else {
      var init := c[..|c| - 1];
      assert s[..|s| - 1] == prefix + init;
      LastComponentAfterSlash(prefix, init);
      assert init + [c[|c| - 1]] == c;
    }
  }

  /**
   * Stripping through a tail made only of stripped characters gives the
   * same as stripping what precedes it.
   */
  lemma {:induction false} RStripSuffix(s: string, tail: string, chars: set<char>)
    requires forall i :: 0 <= i < |tail| ==> tail[i] in chars
    ensures RStrip(s + tail, chars) == RStrip(s, chars)
    decreases |tail|
  {
    if tail != [] {
      var init := tail[..|tail| - 1];
      assert (s + tail)[..|s + tail| - 1] == s + init;
      assert (s + tail)[|s + tail| - 1] == tail[|tail| - 1];
      RStripSuffix(s, init, chars);
    } else {
      assert s + tail == s;
    }
  }

  /**
   * For a node name without slashes, the expected name is the node name
   * itself with its trailing run of `.`, `y`, `a`, `m`, `l` removed,
   * whatever the results directory.
   */
  lemma ExpectedNameOfNode(dir: string, node: string)
    requires node != [] && '/' !in node
    ensures ExpectedName(NodePath(dir, NormaliseNode(node).value)) == RStrip(node, STRIP_CHARS)
  {
    NormalisedStrip(node);
    NodePathStrip(dir, NormaliseNode(node).value);
  }

  /**
   * The dot normalisation adds no slash, and `rstrip` removes it again
   * when it was added.
   */
  lemma NormalisedStrip(node: string)
    requires node != [] && '/' !in node
    ensures '/' !in NormaliseNode(node).value
    ensures RStrip(NormaliseNode(node).value, STRIP_CHARS) == RStrip(node, STRIP_CHARS)
  {
    if node[|node| - 1] != '.' {
      NodeFileHasNoSlash(node, ".");
      RStripSuffix(node, ".", STRIP_CHARS);
    }
  }

  /**
   * The name expected from the result file of a slash-free name `q` is `q`
   * stripped: the directory and the `yaml` suffix both disappear.
   */
  lemma NodePathStrip(dir: string, q: string)
    requires '/' !in q
    ensures ExpectedName(NodePath(dir, q)) == RStrip(q, STRIP_CHARS)
  {
    var file := q + "yaml";
    calc {
      ExpectedName(NodePath(dir, q));
      RStrip(LastComponent(Join(dir, file)), STRIP_CHARS);
      { NodeFileHasNoSlash(q, "yaml");
        JoinedLastComponent(dir, file); }
      RStrip(file, STRIP_CHARS);
      { RStripSuffix(q, "yaml", STRIP_CHARS); }
      RStrip(q, STRIP_CHARS);
    }
  }

  /** The result file of a slash-free node name holds no slash. */
  lemma NodeFileHasNoSlash(node: string, tail: string)
    requires '/' !in node && '/' !in tail
    ensures forall i :: 0 <= i < |node + tail| ==> (node + tail)[i] != '/'
  {
    forall i | 0 <= i < |node + tail| ensures (node + tail)[i] != '/' {
      if i < |node| {
        assert (node + tail)[i] == node[i] && node[i] in node;
      } else {
        assert (node + tail)[i] == tail[i - |node|] && tail[i - |node|] in tail;
      }
    }
  }

  /** Joining a slash-free file name to a directory leaves it the last component. */
  lemma JoinedLastComponent(dir: string, file: string)
    requires file != []
    requires forall i :: 0 <= i < |file| ==> file[i] != '/'
    ensures LastComponent(Join(dir, file)) == file
  {
    var prefix := if dir == [] || dir[|dir| - 1] == '/' then dir else dir + "/";
    assert Join(dir, file) == prefix + file;
    LastComponentAfterSlash(prefix, file);
  }

  /**
   * A node named after a `.com` host is expected under its name less the
   * final `m`: `ns1.example.com` is expected to report `ns1.example.co`.
   */
  lemma ExpectedNameOfComNode(dir: string, host: string)
    requires '/' !in host
    ensures ExpectedName(NodePath(dir, host + ".com.")) == host + ".co"
  {
    var stem := host + ".co";
    var node := stem + "m";
    assert '/' !in node by {
      assert forall i :: |host| <= i < |node| ==> node[i] in ".com";
    }
    calc {
      ExpectedName(NodePath(dir, host + ".com."));
      { assert NormaliseNode(node).value == host + ".com.";
        ExpectedNameOfNode(dir, node); }
      RStrip(node, STRIP_CHARS);
      { RStripSuffix(stem, "m", STRIP_CHARS); }
      RStrip(stem, STRIP_CHARS);
      { assert stem[|stem| - 1] == 'o'; }
      stem;
    }
  }

  /**
   * A node is expected under its own name exactly when that name does not
   * end in `.`, `y`, `a`, `m` or `l`; a node named `ns1.example.com`
   * therefore never matches an NSID equal to its name.
   */
  lemma ExpectedNameOfNodeIff(dir: string, node: string)
    requires node != [] && '/' !in node
    ensures ExpectedName(NodePath(dir, NormaliseNode(node).value)) == node
            <==> node[|node| - 1] !in STRIP_CHARS
  {
    ExpectedNameOfNode(dir, node);
  }
}
