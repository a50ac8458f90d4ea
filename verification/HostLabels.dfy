/** Host matching on DNS label boundaries. */
module HostLabels {
  import opened Text

  predicate HostMatches(host: string, domain: string) {
    host == domain || EndsWith(host, "." + domain)
  }

  const INTERNAL_SOURCE_HOSTS :=
    ["doubao.com", "bytedance.com", "byteimg.com", "zijieapi.com", "feiliao.com", "snssdk.com"]

  predicate IsInternalHost(host: string) {
    exists domain :: domain in INTERNAL_SOURCE_HOSTS && HostMatches(host, domain)
  }

  /** The dot-separated labels of a host name. */
  function Labels(s: string): seq<string> {
    Split(s, '.')
  }

  ghost predicate IsSuffix<T>(part: seq<T>, whole: seq<T>) {
    |part| <= |whole| && whole[|whole| - |part|..] == part
  }

  lemma {:induction false} LabelsOfJoined(a: string, b: string)
    ensures Labels(a + "." + b) == Labels(a) + Labels(b)
  {
    var s := a + "." + b;
    if a == "" {
      assert s[1..] == b;
    } else {
      LabelsOfJoined(a[1..], b);
      assert s[1..] == a[1..] + "." + b;
      assert s[0] == a[0];
    }
  }

  lemma {:induction false} LabelsInjective(s: string, t: string)
    requires Labels(s) == Labels(t)
    ensures s == t
  {
    if s != "" && t != "" {
      var x, y := Labels(s[1..]), Labels(t[1..]);
      LabelsFirst(s);
      LabelsFirst(t);
      if s[0] == '.' {
        assert Labels(s)[1..] == x && Labels(t)[1..] == y;
      } else {
        assert Labels(s)[0][1..] == x[0] && Labels(t)[0][1..] == y[0];
        assert x == [x[0]] + x[1..] && y == [y[0]] + y[1..];
        assert Labels(s)[1..] == x[1..] && Labels(t)[1..] == y[1..];
      }
      LabelsInjective(s[1..], t[1..]);
      assert s == [s[0]] + s[1..] && t == [t[0]] + t[1..];
    } else {
      LabelsFirst(s);
      LabelsFirst(t);
    }
  }

  /** The first label is empty exactly when the text is empty or starts with a dot. */
  lemma LabelsFirst(s: string)
    ensures Labels(s)[0] == "" <==> s == "" || s[0] == '.'
    ensures s != "" && s[0] != '.' ==> Labels(s)[0][0] == s[0]
    ensures |Labels(s)| == 1 && Labels(s)[0] == "" <==> s == ""
  {
  }

  lemma SuffixOfTail<T>(part: seq<T>, whole: seq<T>, tail: seq<T>)
    requires |part| < |whole| && IsSuffix(part, whole) && |tail| == |whole| && tail[1..] == whole[1..]
    ensures IsSuffix(part, tail)
  {
    var n := |whole| - |part|;
    assert whole[n..] == whole[1..][n - 1..];
    assert tail[n..] == tail[1..][n - 1..];
  }

  lemma EndsWithTail(host: string, end: string)
    requires host != "" && EndsWith(host[1..], end)
    ensures EndsWith(host, end)
  {
    assert host[1..][|host| - 1 - |end|..] == host[|host| - |end|..];
  }

  lemma {:induction false} LongerSuffix(host: string, domain: string)
    requires |Labels(domain)| < |Labels(host)| && IsSuffix(Labels(domain), Labels(host))
    ensures EndsWith(host, "." + domain)
  {
    var all, part := Labels(host), Labels(domain);
    var rest := Labels(host[1..]);
    if host[0] == '.' {
      assert rest == all[1..];
      assert rest[|rest| - |part|..] == all[|all| - |part|..];
      if |rest| == |part| {
        assert rest[0..] == rest;
        LabelsInjective(host[1..], domain);
        assert host == "." + domain;
      } else {
        LongerSuffix(host[1..], domain);
        EndsWithTail(host, "." + domain);
      }
    } else {
      SuffixOfTail(part, all, rest);
      LongerSuffix(host[1..], domain);
      EndsWithTail(host, "." + domain);
    }
  }

  /** The string test agrees with the label-wise test on all strings. */
  lemma HostMatchesIffLabelSuffix(host: string, domain: string)
    ensures HostMatches(host, domain) <==> IsSuffix(Labels(domain), Labels(host))
  {
    if HostMatches(host, domain) && host != domain {
      var a := host[..|host| - |domain| - 1];
      assert host == a + "." + domain;
      LabelsOfJoined(a, domain);
    }
    if IsSuffix(Labels(domain), Labels(host)) {
      if |Labels(domain)| == |Labels(host)| {
        assert Labels(host)[0..] == Labels(host);
        LabelsInjective(host, domain);
      } else {
        LongerSuffix(host, domain);
      }
    }
  }
}
