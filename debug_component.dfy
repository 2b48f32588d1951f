/** The supporting-content tab of the debug panel (packages/webapp/src/components/debug.ts): each
    data point is shown as a title and an extract, split at its first colon. */
module Debug {
  import Text

  /** What one card of the tab shows. */
  datatype DataPointInfo = DataPointInfo(title: string, extract: string)

  /** `const [title, ...extract] = dataPoint.split(':')` and `extract.join(':')`. */
  function SplitDataPoint(dataPoint: string): (info: DataPointInfo)
    ensures ':' !in info.title
  {
    var parts := Text.SplitOn(dataPoint, ':');
    DataPointInfo(parts[0], Text.Join(parts[1..], ":"))
  }

  /** A data point without a colon is all title, with an empty extract. */
  lemma SplitWithoutColon(dataPoint: string)
    requires ':' !in dataPoint
    ensures SplitDataPoint(dataPoint) == DataPointInfo(dataPoint, "")
  {
    Text.SplitOnHead(dataPoint, ':');
  }

  /** A data point with a colon is its title, the first colon and its extract: the title is the
      text before the first colon and the extract everything after it, later colons included. */
  lemma SplitAtFirstColon(dataPoint: string)
    requires ':' in dataPoint
    ensures var info := SplitDataPoint(dataPoint);
            && info.title + ":" + info.extract == dataPoint
            && dataPoint[..|info.title|] == info.title
            && dataPoint[|info.title|] == ':'
            && info.extract == dataPoint[|info.title| + 1..]
  {
    var parts := Text.SplitOn(dataPoint, ':');
    Text.JoinSplitOn(dataPoint, ':');
    assert Text.Join(parts, [':']) == parts[0] + [':'] + Text.Join(parts[1..], [':']);
    var info := SplitDataPoint(dataPoint);
    assert info.title + ":" + info.extract == dataPoint;
    assert dataPoint[..|info.title|] == info.title;
    assert dataPoint[|info.title|] == ':';
  }

  /** `renderDataPoints`' `map`: one info per data point. */
  function DataPointInfos(dataPoints: seq<string>): (infos: seq<DataPointInfo>)
    ensures |infos| == |dataPoints|
    ensures forall k :: 0 <= k < |infos| ==> infos[k] == SplitDataPoint(dataPoints[k])
  {
    if dataPoints == [] then []
    else [SplitDataPoint(dataPoints[0])] + DataPointInfos(dataPoints[1..])
  }
}
