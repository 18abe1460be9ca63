/** Reading the range of levels of each topic from the list of topics of each level. */
module TopicLevels {
  import opened Options

  type Topic = string

  datatype TopicLevelEntry = TopicLevelEntry(minLevel: int, maxLevel: int)

  type TopicLevelConf = map<Topic, TopicLevelEntry>

  // ----- what the configuration must be -----

  /** No level names the topic twice. */
  ghost predicate Unrepeated(levels: seq<seq<Topic>>, t: Topic) {
    forall i :: 0 <= i < |levels| ==> multiset(levels[i])[t] <= 1
  }

  /** The levels naming the topic have no gap. */
  ghost predicate Contiguous(levels: seq<seq<Topic>>, t: Topic) {
    forall a, b, c :: 0 <= a < b < c < |levels| && t in levels[a] && t in levels[c] ==> t in levels[b]
  }

  /** The entry is the exact range of the levels naming the topic; no entry, no such level. */
  ghost predicate Describes(levels: seq<seq<Topic>>, conf: TopicLevelConf, t: Topic) {
    if t in conf then
      && 0 <= conf[t].minLevel <= conf[t].maxLevel < |levels|
      && forall i :: 0 <= i < |levels| ==> (t in levels[i] <==> conf[t].minLevel <= i <= conf[t].maxLevel)
    else
      forall i :: 0 <= i < |levels| ==> t !in levels[i]
  }

  ghost predicate ReadSoFar(levels: seq<seq<Topic>>, conf: TopicLevelConf) {
    forall t :: Unrepeated(levels, t) && Describes(levels, conf, t)
  }

  // ----- reading one topic more -----

  /** Everything before level i, and the first j topics of level i. */
  ghost function Prefix(levels: seq<seq<Topic>>, i: nat, j: nat): (r: seq<seq<Topic>>)
    requires i < |levels| && j <= |levels[i]|
    ensures |r| == i + 1 && r[i] == levels[i][..j] && forall m :: 0 <= m < i ==> r[m] == levels[m]
  {
    levels[..i] + [levels[i][..j]]
  }

  /** The entry after topic t is met on level i. */
  function Extended(conf: TopicLevelConf, t: Topic, i: int): (r: TopicLevelEntry) {
    TopicLevelEntry(if t in conf then conf[t].minLevel else i, i)
  }

  lemma PrefixGrows(levels: seq<seq<Topic>>, i: nat, j: nat, t: Topic)
    requires i < |levels| && j < |levels[i]|
    ensures t in levels[i][..j + 1] <==> t in levels[i][..j] || t == levels[i][j]
    ensures multiset(levels[i][..j + 1])[t] == multiset(levels[i][..j])[t] + if t == levels[i][j] then 1 else 0
    ensures t in levels[i][..j] <==> multiset(levels[i][..j])[t] > 0
  {
    assert levels[i][..j + 1] == levels[i][..j] + [levels[i][j]];
  }

  lemma TopicRead(levels: seq<seq<Topic>>, conf: TopicLevelConf, i: nat, j: nat, t: Topic)
    requires i < |levels| && j < |levels[i]|
    requires ReadSoFar(Prefix(levels, i, j), conf)
    requires var s := levels[i][j]; s in conf ==> i == conf[s].maxLevel + 1
    ensures var s := levels[i][j]; var p := Prefix(levels, i, j + 1);
            Unrepeated(p, t) && Describes(p, conf[s := Extended(conf, s, i)], t)
  {
    hide Prefix;
    var p, q := Prefix(levels, i, j), Prefix(levels, i, j + 1);
    PrefixGrows(levels, i, j, t);
    assert Unrepeated(p, t) && Describes(p, conf, t);
    assert q[i] == levels[i][..j + 1] && p[i] == levels[i][..j];
    forall m | 0 <= m < i ensures q[m] == p[m] {}
  }

  lemma RefusedTopic(levels: seq<seq<Topic>>, conf: TopicLevelConf, i: nat, j: nat)
    requires i < |levels| && j < |levels[i]|
    requires ReadSoFar(Prefix(levels, i, j), conf)
    requires levels[i][j] in conf && i != conf[levels[i][j]].maxLevel + 1
    ensures !(Unrepeated(levels, levels[i][j]) && Contiguous(levels, levels[i][j]))
  {
    hide Prefix;
    var t := levels[i][j];
    var p := Prefix(levels, i, j);
    var top := conf[t].maxLevel;
    assert Describes(p, conf, t);
    if top == i {
      assert t in p[i];
      PrefixGrows(levels, i, j, t);
      assert levels[i] == levels[i][..j + 1] + levels[i][j + 1..];
    } else {
      assert t in p[top] && t !in p[i - 1];
      assert t in levels[top] && t !in levels[i - 1] && t in levels[i];
    }
  }

  lemma LevelDone(levels: seq<seq<Topic>>, conf: TopicLevelConf, i: nat)
    requires i < |levels| && ReadSoFar(Prefix(levels, i, |levels[i]|), conf)
    ensures ReadSoFar(levels[..i + 1], conf)
  {
    assert levels[i][..|levels[i]|] == levels[i];
    assert Prefix(levels, i, |levels[i]|) == levels[..i + 1];
  }

  lemma LevelBegins(levels: seq<seq<Topic>>, conf: TopicLevelConf, i: nat)
    requires i < |levels| && ReadSoFar(levels[..i], conf)
    ensures ReadSoFar(Prefix(levels, i, 0), conf)
  {
    var p := Prefix(levels, i, 0);
    forall t ensures Unrepeated(p, t) && Describes(p, conf, t) {
      assert Unrepeated(levels[..i], t) && Describes(levels[..i], conf, t);
      assert forall m :: 0 <= m < i ==> p[m] == levels[..i][m];
    }
  }

  lemma AllReadIsContiguous(levels: seq<seq<Topic>>, conf: TopicLevelConf, t: Topic)
    requires ReadSoFar(levels, conf)
    ensures Unrepeated(levels, t) && Contiguous(levels, t)
  {
    assert Describes(levels, conf, t);
  }

  /** A configuration is read exactly when every topic's levels are unrepeated and without a gap. */
  method ReadTopicLevels(levels: seq<seq<Topic>>) returns (conf: Option<TopicLevelConf>)
    ensures conf.Some? <==> forall t :: Unrepeated(levels, t) && Contiguous(levels, t)
    ensures conf.Some? ==> forall t :: Describes(levels, conf.value, t)
  {
    hide Unrepeated, Contiguous, Prefix;
    var res: TopicLevelConf := map[];
    NothingRead();
    for i := 0 to |levels|
      invariant ReadSoFar(levels[..i], res)
    {
      LevelBegins(levels, res, i);
      for j := 0 to |levels[i]|
        invariant ReadSoFar(Prefix(levels, i, j), res)
      {
        hide Describes;
        var topic := levels[i][j];
        if topic in res && i != res[topic].maxLevel + 1 {
          RefusedTopic(levels, res, i, j);
          return None;
        }
        var next := res[topic := Extended(res, topic, i)];
        ghost var p := Prefix(levels, i, j + 1);
        forall t ensures Unrepeated(p, t) && Describes(p, next, t) {
          TopicRead(levels, res, i, j, t);
        }
        res := next;
      }
      LevelDone(levels, res, i);
    }
    assert levels[..|levels|] == levels;
    forall t ensures Unrepeated(levels, t) && Contiguous(levels, t) {
      AllReadIsContiguous(levels, res, t);
    }
    return Some(res);
  }

  lemma NothingRead()
    ensures ReadSoFar([], map[])
  {}
}
