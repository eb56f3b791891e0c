TestResult.DisplayName,TestResult.Outcome,TestResult.Duration,TestResult.ResourceCount,RandomSeed
ActivityCard.ActivityColor (well-formedness),Passed,00:00:00.2651360,75290,4
ActivityCard.ActivityIcon (well-formedness),Passed,00:00:00.2629267,76397,4
ActivityCard.UnitOnlyLabels (correctness),Passed,00:00:00.2374035,564714,4
ActivityCard.ReadOnlyLabels (correctness),Passed,00:00:00.2202582,317645,4
ActivityCard.ReadHoursThenMinutes (correctness),Passed,00:00:00.1655357,412642,4
ActivityCard.HoursMinutesLabelIs (correctness),Passed,00:00:00.1482181,351967,4
ActivityCard.LabelOfHoursMinutes (correctness),Passed,00:00:00.0636227,156165,4
ActivityCard.FormatDuration (well-formedness),Passed,00:00:00.0547795,38430,4
ActivityCard.FormatDurationRoundTrip (correctness),Passed,00:00:00.0518839,94800,4
ActivityCard.MinutesOnlyLabel (correctness),Passed,00:00:00.0484756,66955,4
ActivityCard.ReadHoursMinutesLabel (correctness),Passed,00:00:00.0483662,67923,4
ActivityCard.ReadAfterNumber (correctness),Passed,00:00:00.0446453,47231,4
ActivityCard.ReadAfterNumber (well-formedness),Passed,00:00:00.0431693,33661,4
ActivityCard.ReadUnit (well-formedness),Passed,00:00:00.0352646,30530,4
ActivityCard.ReadMinutesOf (correctness),Passed,00:00:00.0332244,43100,4
ActivityCard.ReadDuration (well-formedness),Passed,00:00:00.0326342,33043,4
ActivityCard.HoursMinutesLabelIs (well-formedness),Passed,00:00:00.0288931,33947,4
ActivityCard.MinutesLabelIs (correctness),Passed,00:00:00.0288615,26917,4
ActivityCard.HoursAndMinutes (correctness),Passed,00:00:00.0280723,14591,4
ActivityCard.ReadMinutes (well-formedness),Passed,00:00:00.0256647,28548,4
ActivityCard.HoursAndMinutes (well-formedness),Passed,00:00:00.0199656,4598,4
