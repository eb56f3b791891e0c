TestResult.DisplayName,TestResult.Outcome,TestResult.Duration,TestResult.ResourceCount,RandomSeed
ActivityCard.UnitOnlyLabels (correctness),Passed,00:00:00.3885315,1092130,5
ActivityCard.ActivityIcon (well-formedness),Passed,00:00:00.2773500,76363,5
ActivityCard.ActivityColor (well-formedness),Passed,00:00:00.2633882,75106,5
ActivityCard.ReadOnlyLabels (correctness),Passed,00:00:00.2307724,304416,5
ActivityCard.HoursMinutesLabelIs (correctness),Passed,00:00:00.1980830,416421,5
ActivityCard.FormatDurationRoundTrip (correctness),Passed,00:00:00.0887596,152162,5
ActivityCard.ReadHoursThenMinutes (correctness),Passed,00:00:00.0818603,104763,5
ActivityCard.ReadHoursMinutesLabel (correctness),Passed,00:00:00.0709213,90730,5
ActivityCard.MinutesOnlyLabel (correctness),Passed,00:00:00.0618644,66092,5
ActivityCard.ReadAfterNumber (correctness),Passed,00:00:00.0552858,47200,5
ActivityCard.HoursMinutesLabelIs (well-formedness),Passed,00:00:00.0505947,33934,5
ActivityCard.ReadAfterNumber (well-formedness),Passed,00:00:00.0445466,33662,5
ActivityCard.ReadDuration (well-formedness),Passed,00:00:00.0429131,33027,5
ActivityCard.MinutesLabelIs (correctness),Passed,00:00:00.0411681,25787,5
ActivityCard.LabelOfHoursMinutes (correctness),Passed,00:00:00.0398358,60421,5
ActivityCard.FormatDuration (well-formedness),Passed,00:00:00.0383305,38428,5
ActivityCard.ReadMinutesOf (correctness),Passed,00:00:00.0350082,43095,5
ActivityCard.ReadUnit (well-formedness),Passed,00:00:00.0347700,30514,5
ActivityCard.ReadMinutes (well-formedness),Passed,00:00:00.0293072,28593,5
ActivityCard.HoursAndMinutes (correctness),Passed,00:00:00.0173925,13686,5
ActivityCard.HoursAndMinutes (well-formedness),Passed,00:00:00.0092287,4598,5
